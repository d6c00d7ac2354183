/** Day 2: the input is a comma-separated list of id ranges "start-end". Part one adds up
    the ids whose decimal text is some digit string written twice; part two those whose
    text is some digit string written two or more times. */
module Day2 {
  import opened Common

  datatype IdRange = IdRange(start: nat, end: nat)

  // ---------------------------------------------------------------------------------------
  // Parsing
  // ---------------------------------------------------------------------------------------

  /** One range: the text before the first '-' and the text between it and the next '-'
      (anything after a second '-' is ignored), each a `u128`. A piece with no '-' or a
      bound that is not a `u128` is a panic. */
  function ParseRange(piece: string): Result<IdRange> {
    var parts := Split(piece, '-');
    if |parts| < 2 then Err("called `Option::unwrap()` on a `None` value")
    else
      var start := ParseUnsigned(parts[0], U128_MAX);
      var end := ParseUnsigned(parts[1], U128_MAX);
      if start.Err? then Err(start.msg)
      else if end.Err? then Err(end.msg)
      else Ok(IdRange(start.value, end.value))
  }

  /** A parsed range's bounds are the first two '-'-separated parts, each a `u128`, and a
      piece without a '-' fails. */
  lemma ParseRangeSpec(piece: string)
    ensures ParseRange(piece).Ok? ==>
      var parts := Split(piece, '-');
      && |parts| >= 2
      && ParseUnsigned(parts[0], U128_MAX) == Ok(ParseRange(piece).value.start)
      && ParseUnsigned(parts[1], U128_MAX) == Ok(ParseRange(piece).value.end)
    ensures |Split(piece, '-')| < 2 ==> ParseRange(piece).Err?
  {
  }

  /** The ranges between the commas. */
  function ParseRanges(input: string): Result<seq<IdRange>> {
    ParseEach(Split(input, ','), ParseRange)
  }

  function RangeText(r: IdRange): string {
    DecimalString(r.start) + "-" + DecimalString(r.end)
  }

  lemma SplitWithout(s: string, c: char)
    requires forall j :: 0 <= j < |s| ==> s[j] != c
    ensures Split(s, c) == [s]
  {
  }

  lemma DigitsHaveNo(s: string, c: char)
    requires AllDigits(s) && !IsDigit(c)
    ensures forall j :: 0 <= j < |s| ==> s[j] != c
  {
  }

  /** A range written out is read back as itself when both bounds fit a `u128`. */
  lemma ParseRangeText(r: IdRange)
    requires r.start <= U128_MAX && r.end <= U128_MAX
    ensures ParseRange(RangeText(r)) == Ok(r)
  {
    var a := DecimalString(r.start);
    var b := DecimalString(r.end);
    DigitsHaveNo(a, '-');
    DigitsHaveNo(b, '-');
    var t := RangeText(r);
    assert t == a + ("-" + b);
    IndexOfPrefix(a, "-" + b, '-');
    assert t[..|a|] == a && t[|a| + 1..] == b;
    SplitWithout(b, '-');
    assert Split(t, '-') == [a, b];
    ParseDecimalString(r.start, U128_MAX);
    ParseDecimalString(r.end, U128_MAX);
  }

  // ---------------------------------------------------------------------------------------
  // What makes an id invalid
  // ---------------------------------------------------------------------------------------

  /** Part one's test: an even number of digits, and the two halves agree. */
  predicate HalvesEqual(s: string) {
    |s| % 2 == 0 && s[..|s| / 2] == s[|s| / 2..]
  }

  /** The chunk of length k at chunk index c. */
  function Chunk(s: string, k: nat, c: nat): string
    requires k > 0 && c * k + k <= |s|
  {
    s[c * k..c * k + k]
  }

  /** Every whole chunk of length k from chunk index `first` on equals the first chunk. */
  predicate ChunksFrom(s: string, k: nat, first: nat)
    requires 0 < k <= |s|
  {
    forall c: nat :: first <= c < |s| && c * k + k <= |s| ==> Chunk(s, k, c) == s[..k]
  }

  /** The text is a whole number of chunks of length k, all equal to the first. */
  predicate BlockRepeats(s: string, k: nat) {
    0 < k <= |s| && |s| % k == 0 && ChunksFrom(s, k, 0)
  }

  /** Part two's test: some block length from 1 to half the length repeats through the
      text. */
  predicate RepeatedBlock(s: string) {
    exists k: nat :: 1 <= k <= |s| / 2 && BlockRepeats(s, k)
  }

  /** `w` written m times. */
  function Repeat(w: string, m: nat): (s: string)
    ensures |s| == |w| * m
  {
    if m == 0 then [] else Repeat(w, m - 1) + w
  }

  /** With k dividing the length, the chunks that fit are those below length / k. */
  lemma ChunkFits(len: nat, k: nat, c: nat)
    requires k > 0 && len % k == 0
    ensures c * k + k <= len <==> c < len / k
  {
    var m := len / k;
    assert len == k * m;
    if c < m {
      MulLe(c + 1, m, k);
    } else {
      MulLe(m, c, k);
    }
  }

  /** The regular expression `^(\d+)\1$` of part one: a digit text matches exactly when it
      is a non-empty word written twice. */
  lemma HalvesEqualIsSquare(s: string)
    requires s != []
    ensures HalvesEqual(s) <==> exists w: string :: w != [] && s == w + w
  {
    if HalvesEqual(s) {
      var w := s[..|s| / 2];
      assert s == w + w;
    }
    if w: string :| w != [] && s == w + w {
      assert |s| / 2 == |w|;
      assert s[..|w|] == w && s[|w|..] == w;
    }
  }

  lemma {:induction false} PrefixIsRepeat(s: string, k: nat, c: nat)
    requires BlockRepeats(s, k) && k <= |s| && c * k <= |s|
    ensures s[..c * k] == Repeat(s[..k], c)
  {
    if c > 0 {
      var c' := c - 1;
      var p := c' * k;
      assert p + k == c * k;
      MulLe(1, k, c);
      PrefixIsRepeat(s, k, c');
      assert Chunk(s, k, c') == s[..k];
      assert s[..p + k] == s[..p] + s[p..p + k];
    }
  }

  lemma {:induction false} ChunkOfRepeat(w: string, m: nat, c: nat)
    requires w != [] && c * |w| + |w| <= |w| * m
    ensures Repeat(w, m)[c * |w|..c * |w| + |w|] == w
  {
    var l := |w|;
    assert c < m by {
      if c >= m {
        MulLe(m, c, l);
      }
    }
    var prev := Repeat(w, m - 1);
    assert Repeat(w, m) == prev + w;
    var p := c * l;
    if c + 1 < m {
      MulLe(c + 1, m - 1, l);
      assert p + l <= l * (m - 1);
      ChunkOfRepeat(w, m - 1, c);
      assert prev[p..p + l] == w;
      assert (prev + w)[p..p + l] == prev[p..p + l];
    } else {
      assert p == l * (m - 1);
      assert (prev + w)[p..p + l] == w;
    }
  }

  /** The regular expression `^(\d+)\1+$` of part two: a text has a repeating block
      exactly when it is a non-empty word written two or more times. */
  lemma RepeatedBlockIsPower(s: string)
    ensures RepeatedBlock(s) <==> exists w: string, m: nat :: w != [] && m >= 2 && s == Repeat(w, m)
  {
    if RepeatedBlock(s) {
      var k: nat :| 1 <= k <= |s| / 2 && BlockRepeats(s, k);
      BlockIsPower(s, k);
    }
    if w: string, m: nat :| w != [] && m >= 2 && s == Repeat(w, m) {
      PowerHasBlock(w, m);
    }
  }

  lemma BlockIsPower(s: string, k: nat)
    requires 1 <= k <= |s| / 2 && BlockRepeats(s, k)
    ensures s[..k] != [] && |s| / k >= 2 && s == Repeat(s[..k], |s| / k)
  {
    var m := |s| / k;
    DivModUnique(|s|, k, m, 0);
    assert |s| == k * m;
    if m < 2 {
      MulLe(m, 1, k);
    }
    MulLe(1, m, k);
    PrefixIsRepeat(s, k, m);
    assert s[..m * k] == s;
  }

  lemma PowerHasBlock(w: string, m: nat)
    requires w != [] && m >= 2
    ensures RepeatedBlock(Repeat(w, m))
  {
    var s := Repeat(w, m);
    var l := |w|;
    DivModUnique(|s|, l, m, 0);
    MulLe(2, m, l);
    forall c: nat | c < |s| && c * l + l <= |s| ensures Chunk(s, l, c) == s[..l] {
      ChunkOfRepeat(w, m, c);
      ChunkOfRepeat(w, m, 0);
    }
    assert BlockRepeats(s, l);
  }

  /** Every id part one counts, part two counts too: half the length is one of the block
      lengths tried. */
  lemma HalvesEqualRepeats(s: string)
    requires s != [] && HalvesEqual(s)
    ensures RepeatedBlock(s)
  {
    var k := |s| / 2;
    assert |s| == k * 2;
    DivModUnique(|s|, k, 2, 0);
    forall c: nat | c * k + k <= |s| ensures Chunk(s, k, c) == s[..k] {
      if c >= 2 {
        MulLe(2, c, k);
      } else if c == 1 {
        assert Chunk(s, k, c) == s[k..];
      }
    }
    assert BlockRepeats(s, k);
  }

  // ---------------------------------------------------------------------------------------
  // The per-id checks
  // ---------------------------------------------------------------------------------------

  /** The inner chunk loop both parts run: compare chunks `first` onward with the first
      chunk, stopping at the first one that differs. */
  method ChunksMatchFirst(nstr: string, chunkSize: nat, first: nat) returns (valid: bool)
    requires 0 < chunkSize <= |nstr| && |nstr| % chunkSize == 0
    ensures valid <==> ChunksFrom(nstr, chunkSize, first)
  {
    var chunksInStr := |nstr| / chunkSize;
    valid := true;
    var prevChunk := nstr[0..chunkSize];
    var chunkIdx := first;
    while chunkIdx < chunksInStr
      invariant first <= chunkIdx
      invariant prevChunk == nstr[..chunkSize]
      invariant ChunksBetween(nstr, chunkSize, first, chunkIdx)
    {
      ChunkFits(|nstr|, chunkSize, chunkIdx);
      MulLe(1, chunkSize, chunkIdx);
      var chunk := nstr[chunkIdx * chunkSize..chunkIdx * chunkSize + chunkSize];
      assert chunk == Chunk(nstr, chunkSize, chunkIdx);
      if prevChunk == chunk {
        prevChunk := chunk;
      } else {
        valid := false;
        break;
      }
      chunkIdx := chunkIdx + 1;
    }
    if valid {
      ChunksBetweenAll(nstr, chunkSize, first, chunkIdx);
    }
  }

  /** The chunks from index `first` up to (not including) `upto` equal the first chunk. */
  ghost predicate ChunksBetween(s: string, k: nat, first: nat, upto: nat)
    requires 0 < k <= |s|
  {
    forall c: nat :: first <= c < upto && c < |s| && c * k + k <= |s| ==> Chunk(s, k, c) == s[..k]
  }

  lemma ChunksBetweenAll(s: string, k: nat, first: nat, upto: nat)
    requires 0 < k <= |s| && |s| % k == 0 && upto >= |s| / k
    requires ChunksBetween(s, k, first, upto)
    ensures ChunksFrom(s, k, first)
  {
    forall c: nat | first <= c < |s| && c * k + k <= |s| ensures Chunk(s, k, c) == s[..k] {
      ChunkFits(|s|, k, c);
    }
  }

  /** Part one's check on one id. */
  method DoubledCheck(n: nat) returns (valid: bool)
    ensures valid <==> HalvesEqual(DecimalString(n))
  {
    var nstr := DecimalString(n);
    if |nstr| % 2 != 0 {
      return false;
    }
    var chunkSize := |nstr| / 2;
    DivModUnique(|nstr|, chunkSize, 2, 0);
    valid := ChunksMatchFirst(nstr, chunkSize, 1);
    assert chunkSize + chunkSize == |nstr|;
    if valid {
      assert Chunk(nstr, chunkSize, 1) == nstr[..chunkSize];
    } else {
      var c: nat :| 1 <= c && c * chunkSize + chunkSize <= |nstr| && Chunk(nstr, chunkSize, c) != nstr[..chunkSize];
      if c >= 2 {
        MulLe(2, c, chunkSize);
      }
    }
  }

  /** Part two's check on one id: try each block length that divides the length, and
      stop at the first one that repeats. */
  method RepeatedCheck(n: nat) returns (valid: bool)
    ensures valid <==> RepeatedBlock(DecimalString(n))
  {
    var nstr := DecimalString(n);
    var chunkSize := 1;
    while chunkSize <= |nstr| / 2
      invariant 1 <= chunkSize <= |nstr| / 2 + 1
      invariant forall k: nat :: 1 <= k < chunkSize ==> !BlockRepeats(nstr, k)
    {
      if |nstr| % chunkSize != 0 {
        chunkSize := chunkSize + 1;
        continue;
      }
      var matches := ChunksMatchFirst(nstr, chunkSize, 0);
      if matches {
        assert BlockRepeats(nstr, chunkSize);
        return true;
      }
      chunkSize := chunkSize + 1;
    }
    return false;
  }

  // ---------------------------------------------------------------------------------------
  // The sums
  // ---------------------------------------------------------------------------------------

  /** The sum of the ids start .. start + count - 1 whose text passes `invalid`. */
  function IdsSum(start: nat, count: nat, invalid: string -> bool): nat {
    if count == 0 then 0
    else
      var n := start + count - 1;
      IdsSum(start, count - 1, invalid) + if invalid(DecimalString(n)) then n else 0
  }

  /** The sum over an inclusive range; a range whose start exceeds its end is empty. */
  function RangeSum(r: IdRange, invalid: string -> bool): nat {
    if r.start > r.end then 0 else IdsSum(r.start, r.end - r.start + 1, invalid)
  }

  function RangesSum(rs: seq<IdRange>, invalid: string -> bool): nat {
    if rs == [] then 0 else RangesSum(rs[..|rs| - 1], invalid) + RangeSum(rs[|rs| - 1], invalid)
  }

  /** Part one's inner fold over one range. */
  method SumDoubled(r: IdRange) returns (total: nat)
    ensures total == RangeSum(r, HalvesEqual)
  {
    total := 0;
    var count := if r.start > r.end then 0 else r.end - r.start + 1;
    for k := 0 to count
      invariant total == IdsSum(r.start, k, HalvesEqual)
    {
      var n := r.start + k;
      var valid := DoubledCheck(n);
      if valid {
        total := total + n;
      }
    }
  }

  /** Part two's inner fold over one range. */
  method SumRepeated(r: IdRange) returns (total: nat)
    ensures total == RangeSum(r, RepeatedBlock)
  {
    total := 0;
    var count := if r.start > r.end then 0 else r.end - r.start + 1;
    for k := 0 to count
      invariant total == IdsSum(r.start, k, RepeatedBlock)
    {
      var n := r.start + k;
      var valid := RepeatedCheck(n);
      if valid {
        total := total + n;
      }
    }
  }

  /** The sum of every id, over all ranges, whose text is a word written twice. A piece
      that is not a range is an error. */
  method StarOne(input: string) returns (r: Result<nat>)
    ensures r.Err? <==> ParseRanges(input).Err?
    ensures r.Ok? ==> r.value == RangesSum(ParseRanges(input).value, HalvesEqual)
  {
    var pieces := Split(input, ',');
    var invalidAcc := 0;
    ghost var ranges: seq<IdRange> := [];
    for i := 0 to |pieces|
      invariant ParseEach(pieces[..i], ParseRange) == Ok(ranges)
      invariant invalidAcc == RangesSum(ranges, HalvesEqual)
    {
      var range := ParseRange(pieces[i]);
      if range.Err? {
        ParseEachErrAt(pieces, ParseRange, i);
        return Err(range.msg);
      }
      ParseEachSnoc(pieces, ParseRange, i, ranges, range.value);
      RangesSumSnoc(ranges, range.value, HalvesEqual);
      var rangeSum := SumDoubled(range.value);
      invalidAcc := invalidAcc + rangeSum;
      ranges := ranges + [range.value];
    }
    assert pieces[..|pieces|] == pieces;
    return Ok(invalidAcc);
  }

  /** The sum of every id, over all ranges, whose text is a word written two or more times.
      A piece that is not a range is an error. */
  method StarTwo(input: string) returns (r: Result<nat>)
    ensures r.Err? <==> ParseRanges(input).Err?
    ensures r.Ok? ==> r.value == RangesSum(ParseRanges(input).value, RepeatedBlock)
  {
    var pieces := Split(input, ',');
    var invalidAcc := 0;
    ghost var ranges: seq<IdRange> := [];
    for i := 0 to |pieces|
      invariant ParseEach(pieces[..i], ParseRange) == Ok(ranges)
      invariant invalidAcc == RangesSum(ranges, RepeatedBlock)
    {
      var range := ParseRange(pieces[i]);
      if range.Err? {
        ParseEachErrAt(pieces, ParseRange, i);
        return Err(range.msg);
      }
      ParseEachSnoc(pieces, ParseRange, i, ranges, range.value);
      RangesSumSnoc(ranges, range.value, RepeatedBlock);
      var rangeSum := SumRepeated(range.value);
      invalidAcc := invalidAcc + rangeSum;
      ranges := ranges + [range.value];
    }
    assert pieces[..|pieces|] == pieces;
    return Ok(invalidAcc);
  }

  /** One more range adds its own sum. */
  lemma RangesSumSnoc(rs: seq<IdRange>, r: IdRange, invalid: string -> bool)
    ensures RangesSum(rs + [r], invalid) == RangesSum(rs, invalid) + RangeSum(r, invalid)
  {
    var all := rs + [r];
    assert all[..|all| - 1] == rs;
  }

  lemma {:induction false} IdsSumMonotone(start: nat, count: nat)
    ensures IdsSum(start, count, HalvesEqual) <= IdsSum(start, count, RepeatedBlock)
  {
    if count > 0 {
      IdsSumMonotone(start, count - 1);
      var s := DecimalString(start + count - 1);
      if HalvesEqual(s) {
        HalvesEqualRepeats(s);
      }
    }
  }

  /** Part one's answer never exceeds part two's. */
  lemma {:induction false} StarOneAtMostStarTwo(rs: seq<IdRange>)
    ensures RangesSum(rs, HalvesEqual) <= RangesSum(rs, RepeatedBlock)
  {
    if rs != [] {
      StarOneAtMostStarTwo(rs[..|rs| - 1]);
      var r := rs[|rs| - 1];
      if r.start <= r.end {
        IdsSumMonotone(r.start, r.end - r.start + 1);
      }
    }
  }

  /** A one-digit id never counts in part two: there is no block length to try. */
  lemma SingleDigitsValid(n: nat)
    requires n < 10
    ensures !RepeatedBlock(DecimalString(n)) && !HalvesEqual(DecimalString(n))
  {
    assert |DecimalString(n)| == 1;
  }
}
