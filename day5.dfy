/** Day 5: the store room's fresh ingredient id ranges and its list of ingredient ids. Part
    one counts the listed ingredients that some range contains, part two counts the ids
    that some range contains, after merging overlapping ranges. */
module Day5 {
  import opened Common
  import opened Sorting

  /** A `RangeInclusive<u64>`: start..=end, empty when end < start. */
  datatype Range = Range(start: nat, end: nat)

  datatype StoreRoom = StoreRoom(freshnessRanges: seq<Range>, ingredients: seq<nat>)

  // ---------------------------------------------------------------------------------------
  // Reading numbers
  // ---------------------------------------------------------------------------------------

  /** The leading run of digits of a line: its value (0 for an empty run) and what follows. */
  function DigitRun(line: string): (r: (nat, string))
    ensures var d := LeadingCount(line, IsDigit);
            && AllDigits(line[..d])
            && line == line[..d] + r.1
            && (r.1 != [] ==> !IsDigit(r.1[0]))
  {
    var d := LeadingCount(line, IsDigit);
    assert AllDigits(line[..d]);
    (DigitsValue(line[..d]), line[d..])
  }

  /** StoreRoom::eat_number: the digits are read one at a time until the first other
      character, building the number as `num * 10 + digit`. */
  method EatNumber(line: string) returns (num: nat, rest: string)
    ensures (num, rest) == DigitRun(line)
  {
    num := 0;
    var idx := 0;
    while idx < |line| && IsDigit(line[idx])
      invariant idx <= |line| && AllDigits(line[..idx]) && num == DigitsValue(line[..idx])
    {
      DigitsValueSnoc(line[..idx], line[idx]);
      assert line[..idx + 1] == line[..idx] + [line[idx]];
      num := num * 10 + DigitValue(line[idx]);
      idx := idx + 1;
    }
    assert idx == LeadingCount(line, IsDigit);
    rest := line[idx..];
  }

  // ---------------------------------------------------------------------------------------
  // Reading the store room
  // ---------------------------------------------------------------------------------------

  const FIRST_CHARACTER: string := "First character on every line must be a number"
  const NO_RANGE_END: string := "First part of range must be followed by second"
  const NO_DASH: string := "First character after range start must be '-'"
  const RANGE_TRAILING: string := "Line must be empty after end range finishes"
  const ID_TRAILING: string := "Line must be empty after ingredient"

  /** A non-empty line before the first empty line: "start-end". */
  function RangeEntry(line: string): Result<Range> {
    if line == [] || !IsDigit(line[0]) then Err(FIRST_CHARACTER)
    else
      var (start, next) := DigitRun(line);
      if |next| == 0 then Err(NO_RANGE_END)
      else if next[0] != '-' then Err(NO_DASH)
      else
        var (end, empty) := DigitRun(next[1..]);
        if |empty| != 0 then Err(RANGE_TRAILING) else Ok(Range(start, end))
  }

  /** A non-empty line after the first empty line: an ingredient id. */
  function IdEntry(line: string): Result<nat> {
    if line == [] || !IsDigit(line[0]) then Err(FIRST_CHARACTER)
    else
      var (ingredient, empty) := DigitRun(line);
      if |empty| != 0 then Err(ID_TRAILING) else Ok(ingredient)
  }

  /** StoreRoom::from over the lines still to read: an empty line ends the ranges and is
      otherwise skipped; the first failing line stops the reading. */
  function FromLines(lines: seq<string>, gettingRanges: bool, ranges: seq<Range>, ingredients: seq<nat>): Result<StoreRoom>
    decreases |lines|
  {
    if lines == [] then Ok(StoreRoom(ranges, ingredients))
    else if lines[0] == [] then FromLines(lines[1..], false, ranges, ingredients)
    else if gettingRanges then
      var r := RangeEntry(lines[0]);
      if r.Err? then Err(r.msg) else FromLines(lines[1..], true, ranges + [r.value], ingredients)
    else
      var i := IdEntry(lines[0]);
      if i.Err? then Err(i.msg) else FromLines(lines[1..], false, ranges, ingredients + [i.value])
  }

  function StoreRoomOf(input: string): Result<StoreRoom> {
    FromLines(Lines(input), true, [], [])
  }

  /** StoreRoom::from: the loop over the input's lines. */
  method FromInput(input: string) returns (r: Result<StoreRoom>)
    ensures r == StoreRoomOf(input)
  {
    var lines := Lines(input);
    var freshnessRanges: seq<Range> := [];
    var ingredients: seq<nat> := [];
    var gettingRanges := true;
    var i := 0;
    while i < |lines|
      invariant i <= |lines|
      invariant FromLines(lines[i..], gettingRanges, freshnessRanges, ingredients) == StoreRoomOf(input)
    {
      var line := lines[i];
      assert lines[i..][0] == line && lines[i..][1..] == lines[i + 1..];
      i := i + 1;
      if |line| == 0 {
        gettingRanges := false;
        continue;
      }
      if !IsDigit(line[0]) {
        return Err(FIRST_CHARACTER);
      }
      if gettingRanges {
        var start, next := EatNumber(line);
        if |next| == 0 {
          return Err(NO_RANGE_END);
        }
        if next[0] != '-' {
          return Err(NO_DASH);
        }
        var end, empty := EatNumber(next[1..]);
        if |empty| != 0 {
          return Err(RANGE_TRAILING);
        }
        freshnessRanges := freshnessRanges + [Range(start, end)];
      } else {
        var ingredient, empty := EatNumber(line);
        if |empty| != 0 {
          return Err(ID_TRAILING);
        }
        ingredients := ingredients + [ingredient];
      }
    }
    assert lines[i..] == [];
    return Ok(StoreRoom(freshnessRanges, ingredients));
  }

  // ---------------------------------------------------------------------------------------
  // What the reading accepts
  // ---------------------------------------------------------------------------------------

  /** A range line read by cutting it at its first '-': digits on both sides, at least one
      before the dash. */
  function ParseRange(line: string): Result<Range> {
    var i := IndexOf(line, '-');
    if i == 0 || i == |line| then Err("not a range")
    else if !AllDigits(line[..i]) || !AllDigits(line[i + 1..]) then Err("not a range")
    else Ok(Range(DigitsValue(line[..i]), DigitsValue(line[i + 1..])))
  }

  /** An id line: digits only, at least one. */
  function ParseId(line: string): Result<nat> {
    if line != [] && AllDigits(line) then Ok(DigitsValue(line)) else Err("not an id")
  }

  /** The digit-run reading of a range line accepts the same lines as cutting at the dash,
      with the same bounds. */
  lemma RangeEntrySpec(line: string)
    ensures RangeEntry(line).Ok? <==> ParseRange(line).Ok?
    ensures RangeEntry(line).Ok? ==> RangeEntry(line).value == ParseRange(line).value
  {
    if RangeEntry(line).Ok? {
      RangeEntryCut(line);
    }
    if ParseRange(line).Ok? {
      ParseRangeRuns(line);
    }
  }

  lemma RangeEntryCut(line: string)
    requires RangeEntry(line).Ok?
    ensures ParseRange(line) == RangeEntry(line)
  {
    var d := LeadingCount(line, IsDigit);
    var next := line[d..];
    assert next == DigitRun(line).1 && next[0] == '-' && line[d] == '-';
    assert IndexOf(line, '-') == d;
    var e := LeadingCount(next[1..], IsDigit);
    assert next[1..] == line[d + 1..];
    assert e == |next[1..]|;
    assert line[d + 1..][..e] == line[d + 1..];
  }

  lemma ParseRangeRuns(line: string)
    requires ParseRange(line).Ok?
    ensures RangeEntry(line) == ParseRange(line)
  {
    var i := IndexOf(line, '-');
    var d := LeadingCount(line, IsDigit);
    assert AllDigits(line[..i]) && line[i] == '-';
    assert IsDigit(line[0]) by {
      assert line[0] == line[..i][0];
    }
    forall j | 0 <= j < i ensures IsDigit(line[j]) {
      assert line[j] == line[..i][j];
    }
    assert d == i;
    var next := line[i..];
    assert next == DigitRun(line).1 && next[0] == '-';
    assert next[1..] == line[i + 1..];
    AllDigitsRun(line[i + 1..]);
  }

  /** A text of digits is one run of digits. */
  lemma AllDigitsRun(s: string)
    requires AllDigits(s)
    ensures LeadingCount(s, IsDigit) == |s| && s[..|s|] == s && DigitRun(s) == (DigitsValue(s), [])
  {
    assert s[..|s|] == s;
  }

  lemma IdEntrySpec(line: string)
    ensures IdEntry(line).Ok? <==> ParseId(line).Ok?
    ensures IdEntry(line).Ok? ==> IdEntry(line).value == ParseId(line).value
  {
    var d := LeadingCount(line, IsDigit);
    if IdEntry(line).Ok? {
      assert d == |line|;
      assert line[..d] == line;
    }
    if ParseId(line).Ok? {
      AllDigitsRun(line);
      assert IsDigit(line[0]);
    }
  }

  /** The lines before the first empty one. */
  function FirstEmpty(lines: seq<string>): (e: nat)
    ensures e <= |lines| && (e < |lines| ==> lines[e] == [])
    ensures forall k :: 0 <= k < e ==> lines[k] != []
  {
    if lines == [] || lines[0] == [] then 0 else 1 + FirstEmpty(lines[1..])
  }

  /** The lines that are not empty, in order. */
  function NonEmpty(lines: seq<string>): (r: seq<string>)
    ensures forall k :: 0 <= k < |r| ==> r[k] != []
  {
    if lines == [] then []
    else if lines[0] == [] then NonEmpty(lines[1..])
    else [lines[0]] + NonEmpty(lines[1..])
  }

  /** Once the ranges are over, every non-empty line is an id. */
  lemma {:induction false} FromLinesIds(lines: seq<string>, ranges: seq<Range>, ingredients: seq<nat>)
    ensures var p := ParseEach(NonEmpty(lines), IdEntry);
            FromLines(lines, false, ranges, ingredients)
              == if p.Err? then Err(p.msg) else Ok(StoreRoom(ranges, ingredients + p.value))
    decreases |lines|
  {
    if lines == [] {
      assert ingredients + [] == ingredients;
    } else if lines[0] == [] {
      FromLinesIds(lines[1..], ranges, ingredients);
    } else {
      var i := IdEntry(lines[0]);
      var texts := NonEmpty(lines);
      assert texts[0] == lines[0] && texts[1..] == NonEmpty(lines[1..]);
      if i.Ok? {
        FromLinesIds(lines[1..], ranges, ingredients + [i.value]);
        var p := ParseEach(NonEmpty(lines[1..]), IdEntry);
        if p.Ok? {
          assert ingredients + [i.value] + p.value == ingredients + ([i.value] + p.value);
        }
      }
    }
  }

  /** A non-empty first line belongs to the part before the first empty line. */
  lemma {:induction false} FirstEmptyCons(lines: seq<string>)
    requires lines != [] && lines[0] != []
    ensures var e := FirstEmpty(lines);
            && 1 <= e && FirstEmpty(lines[1..]) == e - 1
            && lines[..e][0] == lines[0] && lines[..e][1..] == lines[1..][..e - 1]
            && lines[1..][e - 1..] == lines[e..]
  {
    var e := FirstEmpty(lines);
    assert e == 1 + FirstEmpty(lines[1..]);
    assert lines[..e][1..] == lines[1..][..e - 1];
    assert lines[1..][e - 1..] == lines[e..];
  }

  /** Until the first empty line every line is a range; after it, the id lines follow. */
  lemma {:induction false} FromLinesRanges(lines: seq<string>, ranges: seq<Range>, ingredients: seq<nat>)
    ensures var e := FirstEmpty(lines);
            var p := ParseEach(lines[..e], RangeEntry);
            FromLines(lines, true, ranges, ingredients)
              == if p.Err? then Err(p.msg) else FromLines(lines[e..], false, ranges + p.value, ingredients)
    decreases |lines|
  {
    var e := FirstEmpty(lines);
    if lines == [] || lines[0] == [] {
      assert lines[..e] == [] && lines[e..] == lines && ranges + [] == ranges;
    } else {
      var r := RangeEntry(lines[0]);
      FirstEmptyCons(lines);
      if r.Ok? {
        FromLinesRanges(lines[1..], ranges + [r.value], ingredients);
        var rest := ParseEach(lines[1..][..e - 1], RangeEntry);
        if rest.Ok? {
          assert ranges + [r.value] + rest.value == ranges + ([r.value] + rest.value);
        }
      }
    }
  }

  /** Two parsers that accept the same texts with the same values parse a list alike. */
  lemma {:induction false} ParseEachAlike<T>(texts: seq<string>, p: string -> Result<T>, q: string -> Result<T>)
    requires forall k :: 0 <= k < |texts| ==> (p(texts[k]).Ok? <==> q(texts[k]).Ok?)
    requires forall k :: 0 <= k < |texts| && p(texts[k]).Ok? ==> p(texts[k]).value == q(texts[k]).value
    ensures ParseEach(texts, p).Ok? <==> ParseEach(texts, q).Ok?
    ensures ParseEach(texts, p).Ok? ==> ParseEach(texts, p).value == ParseEach(texts, q).value
  {
    if texts != [] {
      assert forall k :: 0 <= k < |texts[1..]| ==> texts[1..][k] == texts[k + 1];
      ParseEachAlike(texts[1..], p, q);
    }
  }

  /** StoreRoom::from accepts exactly the inputs whose lines before the first empty line
      are all "a-b" ranges and whose other non-empty lines are all ids, and reads those in
      order. */
  lemma StoreRoomSpec(input: string)
    ensures var lines := Lines(input);
            var e := FirstEmpty(lines);
            var rs := ParseEach(lines[..e], ParseRange);
            var ids := ParseEach(NonEmpty(lines[e..]), ParseId);
            && (StoreRoomOf(input).Ok? <==> rs.Ok? && ids.Ok?)
            && (StoreRoomOf(input).Ok? ==> StoreRoomOf(input).value == StoreRoom(rs.value, ids.value))
  {
    var lines := Lines(input);
    var e := FirstEmpty(lines);
    FromLinesRanges(lines, [], []);
    var head := lines[..e];
    var rs := ParseEach(head, RangeEntry);
    if rs.Ok? {
      FromLinesIds(lines[e..], rs.value, []);
      assert [] + rs.value == rs.value;
      var ids := ParseEach(NonEmpty(lines[e..]), IdEntry);
      if ids.Ok? {
        assert [] + ids.value == ids.value;
      }
    }
    RangesAlike(head);
    IdsAlike(NonEmpty(lines[e..]));
  }

  lemma RangesAlike(head: seq<string>)
    ensures ParseEach(head, RangeEntry).Ok? <==> ParseEach(head, ParseRange).Ok?
    ensures ParseEach(head, RangeEntry).Ok? ==> ParseEach(head, RangeEntry).value == ParseEach(head, ParseRange).value
  {
    forall k | 0 <= k < |head| ensures RangeEntry(head[k]).Ok? <==> ParseRange(head[k]).Ok? {
      RangeEntrySpec(head[k]);
    }
    forall k | 0 <= k < |head| && RangeEntry(head[k]).Ok? ensures RangeEntry(head[k]).value == ParseRange(head[k]).value {
      RangeEntrySpec(head[k]);
    }
    ParseEachAlike(head, RangeEntry, ParseRange);
  }

  lemma IdsAlike(tail: seq<string>)
    ensures ParseEach(tail, IdEntry).Ok? <==> ParseEach(tail, ParseId).Ok?
    ensures ParseEach(tail, IdEntry).Ok? ==> ParseEach(tail, IdEntry).value == ParseEach(tail, ParseId).value
  {
    forall k | 0 <= k < |tail| ensures IdEntry(tail[k]).Ok? <==> ParseId(tail[k]).Ok? {
      IdEntrySpec(tail[k]);
    }
    forall k | 0 <= k < |tail| && IdEntry(tail[k]).Ok? ensures IdEntry(tail[k]).value == ParseId(tail[k]).value {
      IdEntrySpec(tail[k]);
    }
    ParseEachAlike(tail, IdEntry, ParseId);
  }

  // ---------------------------------------------------------------------------------------
  // Part one: fresh ingredients
  // ---------------------------------------------------------------------------------------

  predicate Contains(r: Range, id: nat) {
    r.start <= id <= r.end
  }

  /** Some range contains the id. */
  ghost predicate Fresh(ranges: seq<Range>, id: nat) {
    exists k :: 0 <= k < |ranges| && Contains(ranges[k], id)
  }

  /** `freshness_ranges.iter().any(|range| range.contains(&ingredient))`. */
  function AnyContains(ranges: seq<Range>, id: nat): (b: bool)
    ensures b <==> Fresh(ranges, id)
  {
    if ranges == [] then false
    else
      assert forall k :: 0 <= k < |ranges[1..]| ==> ranges[1..][k] == ranges[k + 1];
      Contains(ranges[0], id) || AnyContains(ranges[1..], id)
  }

  /** star_one's fold over the ingredients: one for each that some range contains. */
  function FreshCount(ranges: seq<Range>, ingredients: seq<nat>): nat {
    if ingredients == [] then 0
    else
      var last := ingredients[|ingredients| - 1];
      FreshCount(ranges, ingredients[..|ingredients| - 1]) + (if AnyContains(ranges, last) then 1 else 0)
  }

  ghost function FreshPositions(ranges: seq<Range>, ingredients: seq<nat>): set<nat> {
    set k | 0 <= k < |ingredients| && Fresh(ranges, ingredients[k])
  }

  lemma FreshPositionsSnoc(ranges: seq<Range>, init: seq<nat>, id: nat)
    ensures FreshPositions(ranges, init + [id])
         == FreshPositions(ranges, init) + (if Fresh(ranges, id) then {|init|} else {})
  {
    var all := init + [id];
    assert forall k :: 0 <= k < |init| ==> all[k] == init[k];
    assert all[|init|] == id;
  }

  /** The fold counts the listed ingredients (with repeats) that some range contains. */
  lemma {:induction false} FreshCountSpec(ranges: seq<Range>, ingredients: seq<nat>)
    ensures FreshCount(ranges, ingredients) == |FreshPositions(ranges, ingredients)|
  {
    if ingredients == [] {
      assert FreshPositions(ranges, ingredients) == {};
    } else {
      var n := |ingredients| - 1;
      var init := ingredients[..n];
      assert ingredients == init + [ingredients[n]];
      FreshCountSpec(ranges, init);
      FreshPositionsSnoc(ranges, init, ingredients[n]);
      assert n !in FreshPositions(ranges, init);
    }
  }

  /** star_one: the store room from the text, then its fresh ingredients. */
  method StarOne(input: string) returns (r: Result<nat>)
    ensures r.Err? <==> StoreRoomOf(input).Err?
    ensures r.Ok? ==>
      var room := StoreRoomOf(input).value;
      r.value == |FreshPositions(room.freshnessRanges, room.ingredients)|
  {
    var room := FromInput(input);
    if room.Err? {
      return Err(room.msg);
    }
    FreshCountSpec(room.value.freshnessRanges, room.value.ingredients);
    return Ok(FreshCount(room.value.freshnessRanges, room.value.ingredients));
  }

  // ---------------------------------------------------------------------------------------
  // Part two: merging the ranges
  // ---------------------------------------------------------------------------------------

  function RangeStart(r: Range): int {
    r.start
  }

  predicate NonEmptyRange(r: Range) {
    r.start <= r.end
  }

  ghost predicate AllNonEmpty(ranges: seq<Range>) {
    forall k :: 0 <= k < |ranges| ==> NonEmptyRange(ranges[k])
  }

  /** Each range starts after the one before it ends. */
  ghost predicate Separated(ranges: seq<Range>) {
    forall k :: 0 <= k < |ranges| - 1 ==> ranges[k].end < ranges[k + 1].start
  }

  /** The ids some range contains. */
  ghost function FreshIds(ranges: seq<Range>): set<nat> {
    set k, n: nat | 0 <= k < |ranges| && n <= ranges[k].end && Contains(ranges[k], n) :: n
  }

  lemma FreshIdsMembers(ranges: seq<Range>)
    ensures forall n :: n in FreshIds(ranges) <==> Fresh(ranges, n)
  {
    forall n | Fresh(ranges, n) ensures n in FreshIds(ranges) {
      var k :| 0 <= k < |ranges| && Contains(ranges[k], n);
    }
  }

  lemma FreshSnoc(ranges: seq<Range>, r: Range, id: nat)
    ensures Fresh(ranges + [r], id) <==> Fresh(ranges, id) || Contains(r, id)
  {
    var all := ranges + [r];
    if Fresh(all, id) {
      var k :| 0 <= k < |all| && Contains(all[k], id);
      if k < |ranges| {
        assert all[k] == ranges[k];
      }
    }
    if Fresh(ranges, id) {
      var k :| 0 <= k < |ranges| && Contains(ranges[k], id);
      assert all[k] == ranges[k];
    }
    assert all[|ranges|] == r;
  }

  /** What the merge keeps between steps. */
  ghost predicate MergedShape(acc: seq<Range>) {
    |acc| >= 1 && SortedBy(acc, RangeStart) && Separated(acc)
  }

  lemma FreshSnocAll(ranges: seq<Range>, r: Range)
    ensures forall id :: Fresh(ranges + [r], id) <==> Fresh(ranges, id) || Contains(r, id)
  {
    forall id ensures Fresh(ranges + [r], id) <==> Fresh(ranges, id) || Contains(r, id) {
      FreshSnoc(ranges, r, id);
    }
  }

  /** A range that starts after the last merged range ends is pushed. */
  lemma MergePush(acc: seq<Range>, range: Range)
    requires MergedShape(acc) && acc[|acc| - 1].end < range.start
    requires acc[|acc| - 1].start <= range.start
    ensures MergedShape(acc + [range])
    ensures forall id :: Fresh(acc + [range], id) <==> Fresh(acc, id) || Contains(range, id)
    ensures AllNonEmpty(acc) && NonEmptyRange(range) ==> AllNonEmpty(acc + [range])
  {
    var acc' := acc + [range];
    forall i, j | 0 <= i < j < |acc'| ensures RangeStart(acc'[i]) <= RangeStart(acc'[j]) {
      if j == |acc| {
        assert acc'[i] == acc[i];
        assert RangeStart(acc[i]) <= RangeStart(acc[|acc| - 1]);
      } else {
        assert acc'[i] == acc[i] && acc'[j] == acc[j];
      }
    }
    forall k | 0 <= k < |acc'| - 1 ensures acc'[k].end < acc'[k + 1].start {
      assert acc'[k] == acc[k];
      if k + 1 < |acc| {
        assert acc'[k + 1] == acc[k + 1];
      }
    }
    FreshSnocAll(acc, range);
    forall k | 0 <= k < |acc'| && AllNonEmpty(acc) && NonEmptyRange(range) ensures NonEmptyRange(acc'[k]) {
      if k < |acc| {
        assert acc'[k] == acc[k];
      }
    }
  }

  /** A range that starts inside the last merged range and ends after it extends it. */
  lemma MergeExtend(acc: seq<Range>, range: Range)
    requires MergedShape(acc) && acc[|acc| - 1].start <= range.start <= acc[|acc| - 1].end < range.end
    ensures var last := acc[|acc| - 1];
            var acc' := acc[..|acc| - 1] + [Range(last.start, range.end)];
            && MergedShape(acc')
            && (forall id :: Fresh(acc', id) <==> Fresh(acc, id) || Contains(range, id))
            && (AllNonEmpty(acc) ==> AllNonEmpty(acc'))
  {
    var n := |acc| - 1;
    var last := acc[n];
    var init := acc[..n];
    var acc' := init + [Range(last.start, range.end)];
    assert acc == init + [last];
    forall i, j | 0 <= i < j < |acc'| ensures RangeStart(acc'[i]) <= RangeStart(acc'[j]) {
      assert acc'[i].start == acc[i].start && acc'[j].start == acc[j].start;
    }
    forall k | 0 <= k < |acc'| - 1 ensures acc'[k].end < acc'[k + 1].start {
      assert acc'[k] == acc[k] && acc'[k + 1].start == acc[k + 1].start;
    }
    FreshSnocAll(init, last);
    FreshSnocAll(init, Range(last.start, range.end));
    forall k | 0 <= k < |acc'| && AllNonEmpty(acc) ensures NonEmptyRange(acc'[k]) {
      if k < n {
        assert acc'[k] == acc[k];
      }
    }
  }

  /** A range that ends inside the last merged range adds nothing. */
  lemma MergeAbsorb(acc: seq<Range>, range: Range)
    requires |acc| >= 1 && acc[|acc| - 1].start <= range.start && range.end <= acc[|acc| - 1].end
    ensures forall id :: Fresh(acc, id) <==> Fresh(acc, id) || Contains(range, id)
  {
    forall id | Contains(range, id) ensures Fresh(acc, id) {
      assert Contains(acc[|acc| - 1], id);
    }
  }

  /** star_two's fold over the sorted ranges: a range that starts no later than the last
      merged range ends is absorbed into it, extending it when it ends later; any other
      range is pushed. */
  method MergeRanges(sorted: seq<Range>) returns (merged: seq<Range>)
    requires |sorted| >= 1 && SortedBy(sorted, RangeStart)
    ensures MergedShape(merged)
    ensures forall id :: Fresh(merged, id) <==> Fresh(sorted, id)
    ensures AllNonEmpty(sorted) ==> AllNonEmpty(merged)
  {
    merged := [sorted[0]];
    assert sorted[..1] == [sorted[0]];
    for i := 1 to |sorted|
      invariant MergedShape(merged)
      invariant forall j :: i <= j < |sorted| ==> merged[|merged| - 1].start <= sorted[j].start
      invariant forall id :: Fresh(merged, id) <==> Fresh(sorted[..i], id)
      invariant AllNonEmpty(sorted) ==> AllNonEmpty(merged)
    {
      var range := sorted[i];
      assert sorted[..i + 1] == sorted[..i] + [range];
      FreshSnocAll(sorted[..i], range);
      var lastRange := merged[|merged| - 1];
      if lastRange.end >= range.start {
        if lastRange.end < range.end {
          MergeExtend(merged, range);
          merged := merged[..|merged| - 1] + [Range(lastRange.start, range.end)];
        } else {
          MergeAbsorb(merged, range);
        }
      } else {
        MergePush(merged, range);
        merged := merged + [range];
      }
    }
    assert sorted[..|sorted|] == sorted;
  }

  const SUBTRACT_OVERFLOW: string := "attempt to subtract with overflow"
  const NO_FIRST_RANGE: string := "called `Option::unwrap()` on a `None` value"

  /** star_two's final fold: end - start + 1 for each merged range; the u64 subtraction
      fails on a range whose end is below its start. */
  function TotalFresh(merged: seq<Range>): Result<nat> {
    if merged == [] then Ok(0)
    else
      var before := TotalFresh(merged[..|merged| - 1]);
      var r := merged[|merged| - 1];
      if before.Err? then before
      else if r.end < r.start then Err(SUBTRACT_OVERFLOW)
      else Ok(before.value + (r.end - r.start) + 1)
  }

  predicate Between(start: nat, n: nat, end: nat) {
    start <= n <= end
  }

  ghost function Interval(start: nat, end: nat): set<nat> {
    set n: nat | n <= end && Between(start, n, end)
  }

  lemma {:induction false} IntervalSize(start: nat, end: nat)
    requires start <= end + 1
    ensures |Interval(start, end)| == end + 1 - start
    decreases end + 1 - start
  {
    if start <= end {
      IntervalSize(start + 1, end);
      assert Interval(start, end) == Interval(start + 1, end) + {start};
    } else {
      assert Interval(start, end) == {};
    }
  }

  /** The total exists exactly when no range is empty. */
  lemma {:induction false} TotalFreshOk(merged: seq<Range>)
    ensures TotalFresh(merged).Ok? <==> AllNonEmpty(merged)
  {
    if merged != [] {
      var n := |merged| - 1;
      var init := merged[..n];
      assert forall k :: 0 <= k < n ==> init[k] == merged[k];
      TotalFreshOk(init);
    }
  }

  /** Over ranges sorted by start and each starting after the one before ends, the total
      is the number of ids covered. */
  lemma {:induction false} TotalFreshSpec(merged: seq<Range>)
    requires SortedBy(merged, RangeStart) && Separated(merged)
    ensures TotalFresh(merged).Ok? ==> TotalFresh(merged).value == |FreshIds(merged)|
  {
    if merged == [] {
      assert FreshIds(merged) == {};
    } else if TotalFresh(merged).Ok? {
      var n := |merged| - 1;
      var init, last := merged[..n], merged[n];
      var before := TotalFresh(init);
      assert before.Ok? && last.start <= last.end;
      assert TotalFresh(merged).value == before.value + (last.end - last.start) + 1;
      IntervalSize(last.start, last.end);
      SortedSeparatedInit(merged);
      TotalFreshSpec(init);
      assert merged == init + [last];
      FreshIdsSnoc(init, last);
    }
  }

  /** Dropping the last range keeps the ranges sorted and apart. */
  lemma SortedSeparatedInit(merged: seq<Range>)
    requires merged != [] && SortedBy(merged, RangeStart) && Separated(merged)
    ensures SortedBy(merged[..|merged| - 1], RangeStart) && Separated(merged[..|merged| - 1])
  {
    var init := merged[..|merged| - 1];
    assert forall k :: 0 <= k < |init| ==> init[k] == merged[k];
  }

  lemma FreshIdsSnoc(init: seq<Range>, last: Range)
    requires SortedBy(init + [last], RangeStart) && Separated(init + [last])
    ensures FreshIds(init + [last]) == FreshIds(init) + Interval(last.start, last.end)
    ensures FreshIds(init) !! Interval(last.start, last.end)
  {
    var all := init + [last];
    FreshIdsMembers(all);
    FreshIdsMembers(init);
    forall id ensures id in FreshIds(all) <==> id in FreshIds(init) || id in Interval(last.start, last.end) {
      FreshSnoc(init, last, id);
    }
    forall id | id in FreshIds(init) ensures id < last.start {
      var k :| 0 <= k < |init| && Contains(init[k], id);
      assert all[k] == init[k] && all[k].end < all[k + 1].start;
      assert RangeStart(all[k + 1]) <= RangeStart(all[|init|]);
    }
  }

  /** Reordering ranges covers the same ids. */
  lemma FreshIdsReordered(a: seq<Range>, b: seq<Range>)
    requires multiset(a) == multiset(b)
    ensures FreshIds(a) == FreshIds(b)
    ensures AllNonEmpty(a) ==> AllNonEmpty(b)
  {
    FreshIdsMembers(a);
    FreshIdsMembers(b);
    forall id | Fresh(a, id) ensures Fresh(b, id) {
      var k :| 0 <= k < |a| && Contains(a[k], id);
      assert a[k] in multiset(b);
      var j :| 0 <= j < |b| && b[j] == a[k];
    }
    forall id | Fresh(b, id) ensures Fresh(a, id) {
      var k :| 0 <= k < |b| && Contains(b[k], id);
      assert b[k] in multiset(a);
      var j :| 0 <= j < |a| && a[j] == b[k];
    }
    if AllNonEmpty(a) {
      forall k | 0 <= k < |b| ensures NonEmptyRange(b[k]) {
        assert b[k] in multiset(a);
        var j :| 0 <= j < |a| && a[j] == b[k];
      }
    }
  }

  /** star_two: sort the ranges by start, merge them and total the merged sizes. It needs a
      range; with only non-empty ranges it always succeeds; its answer is the number of
      ids some range contains. */
  method StarTwo(input: string) returns (r: Result<nat>)
    ensures StoreRoomOf(input).Err? ==> r.Err?
    ensures StoreRoomOf(input).Ok? && StoreRoomOf(input).value.freshnessRanges == [] ==> r.Err?
    ensures (StoreRoomOf(input).Ok? && StoreRoomOf(input).value.freshnessRanges != []
             && AllNonEmpty(StoreRoomOf(input).value.freshnessRanges)) ==> r.Ok?
    ensures r.Ok? ==>
              && StoreRoomOf(input).Ok?
              && r.value == |FreshIds(StoreRoomOf(input).value.freshnessRanges)|
  {
    var room := FromInput(input);
    if room.Err? {
      return Err(room.msg);
    }
    var ranges := room.value.freshnessRanges;
    var sorted := SortBy(ranges, RangeStart);
    if |sorted| == 0 {
      return Err(NO_FIRST_RANGE);
    }
    FreshIdsReordered(ranges, sorted);
    var merged := MergeRanges(sorted);
    FreshIdsMembers(merged);
    FreshIdsMembers(sorted);
    assert FreshIds(merged) == FreshIds(sorted);
    TotalFreshOk(merged);
    TotalFreshSpec(merged);
    r := TotalFresh(merged);
  }
}
