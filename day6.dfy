// Day 6: a worksheet of columns of numbers, each column closed by an operator that is
// either multiplication or addition; the answer is the sum of the columns' results.

module Day6 {
  import opened Common

  // ---------------------------------------------------------------------------------------
  // Operators and columns
  // ---------------------------------------------------------------------------------------

  datatype Op = Mult | Add

  const BAD_OPERATOR: string := "The only acceptable characters for operations are '*' and '+'!"

  /** Op::from: '*' is multiplication, '+' is addition, any other character panics. */
  function OpOf(c: char): (r: Result<Op>)
    ensures r.Ok? <==> c == '*' || c == '+'
    ensures r == Ok(Mult) <==> c == '*'
    ensures r == Ok(Add) <==> c == '+'
  {
    if c == '*' then Ok(Mult)
    else if c == '+' then Ok(Add)
    else Err(BAD_OPERATOR)
  }

  datatype Column = Column(values: seq<nat>, operation: Op)

  /** What a column is worth: the product of its values (1 when there are none) or their
      sum (0 when there are none). */
  function Value(col: Column): int {
    if col.operation == Mult then Product(col.values) else Sum(col.values)
  }

  /** Column::solve: the fold from the operator's identity over the values. */
  method Solve(col: Column) returns (r: int)
    ensures r == Value(col)
  {
    var values := col.values;
    r := if col.operation == Mult then 1 else 0;
    for i := 0 to |values|
      invariant r == Value(Column(values[..i], col.operation))
    {
      assert values[..i + 1][..i] == values[..i];
      r := if col.operation == Mult then r * values[i] else r + values[i];
    }
    assert values[..|values|] == values;
  }

  /** Worksheet::solve: the sum of the columns' values. */
  function Total(cols: seq<Column>): int {
    if cols == [] then 0 else Total(cols[..|cols| - 1]) + Value(cols[|cols| - 1])
  }

  /** The total of two worksheets side by side is the sum of their totals. */
  lemma {:induction false} TotalAppend(a: seq<Column>, b: seq<Column>)
    ensures Total(a + b) == Total(a) + Total(b)
    decreases |b|
  {
    if b == [] {
      assert a + b == a;
    } else {
      assert (a + b)[..|a + b| - 1] == a + b[..|b| - 1];
      TotalAppend(a, b[..|b| - 1]);
    }
  }

  /** The iterator sum in Worksheet::solve, column by column. */
  method SolveAll(cols: seq<Column>) returns (r: int)
    ensures r == Total(cols)
  {
    r := 0;
    for i := 0 to |cols|
      invariant r == Total(cols[..i])
    {
      assert cols[..i + 1][..i] == cols[..i];
      var v := Solve(cols[i]);
      r := r + v;
    }
    assert cols[..|cols|] == cols;
  }

  // ---------------------------------------------------------------------------------------
  // Tokenizers
  // ---------------------------------------------------------------------------------------

  /** char::is_whitespace: the characters with Unicode's White_Space property, the ASCII
      tab, line feed, vertical tab, form feed, carriage return and space, and beyond ASCII
      the next line, no-break space, Ogham space mark, the spaces U+2000 to U+200A, the line
      and paragraph separators, the narrow no-break space, the medium mathematical space
      and the ideographic space. */
  predicate IsWhitespace(c: char) {
    ('\t' <= c <= '\r') || c == ' ' || c == '\U{85}' || c == '\U{A0}' || c == '\U{1680}'
    || ('\U{2000}' <= c <= '\U{200A}') || c == '\U{2028}' || c == '\U{2029}' || c == '\U{202F}'
    || c == '\U{205F}' || c == '\U{3000}'
  }

  /** eat_number_skip_whitespace: skips whitespace up to the first digit, reads the run of
      digits there and leaves the text from the first character after that run; with no
      digit there the number is None and the text left starts at the first character that
      is not whitespace. */
  method EatNumberSkipWhitespace(line: string) returns (num: Option<nat>, rest: string)
    ensures (num, rest) == EatNumberSkipping(line, IsWhitespace)
    ensures var m := LeadingCount(line, IsWhitespace);
            var d := LeadingCount(line[m..], IsDigit);
            && AllDigits(line[m..m + d])
            && rest == line[m + d..]
            && num == if d == 0 then None else Some(DigitsValue(line[m..m + d]))
  {
    num := None;
    var i := 0;
    while i < |line| && ((IsWhitespace(line[i]) && num.None?) || IsDigit(line[i]))
      invariant i <= |line|
      invariant EatFrom(line, IsWhitespace, i, num) == EatFrom(line, IsWhitespace, 0, None)
      decreases |line| - i
    {
      if !(IsWhitespace(line[i]) && num.None?) {
        num := Some((if num.Some? then num.value else 0) * 10 + DigitValue(line[i]));
      }
      i := i + 1;
    }
    rest := line[i..];
    EatenRuns(line, num, rest);
  }

  /** What eat_number_skip_whitespace answers, as a run of whitespace and a run of digits. */
  lemma EatenRuns(line: string, num: Option<nat>, rest: string)
    requires (num, rest) == EatNumberSkipping(line, IsWhitespace)
    ensures var m := LeadingCount(line, IsWhitespace);
            var d := LeadingCount(line[m..], IsDigit);
            && AllDigits(line[m..m + d])
            && rest == line[m + d..]
            && num == if d == 0 then None else Some(DigitsValue(line[m..m + d]))
  {
    EatenAsRuns(line, IsWhitespace, num, rest);
  }

  /** The first character that is not whitespace and the text after it, or None and
      nothing left when the text is all whitespace. */
  function NextChar(line: string): (r: (Option<char>, string))
    ensures var m := LeadingCount(line, IsWhitespace);
            && (r.0.None? <==> m == |line|)
            && (r.0.None? ==> r.1 == [])
            && (r.0.Some? ==> !IsWhitespace(r.0.value) && line == line[..m] + [r.0.value] + r.1)
  {
    var m := LeadingCount(line, IsWhitespace);
    if m == |line| then (None, [])
    else
      assert line == line[..m] + [line[m]] + line[m + 1..];
      (Some(line[m]), line[m + 1..])
  }

  /** eat_next_char_skip_whitespace: the search for the first non-whitespace character. */
  method EatNextCharSkipWhitespace(line: string) returns (c: Option<char>, rest: string)
    ensures (c, rest) == NextChar(line)
  {
    var i := 0;
    while i < |line| && IsWhitespace(line[i])
      invariant i <= |line| && i <= LeadingCount(line, IsWhitespace)
      invariant LeadingCount(line[i..], IsWhitespace) + i == LeadingCount(line, IsWhitespace)
      decreases |line| - i
    {
      assert line[i..][1..] == line[i + 1..];
      i := i + 1;
    }
    if i == |line| {
      c, rest := None, [];
    } else {
      c, rest := Some(line[i]), line[i + 1..];
    }
  }

  // ---------------------------------------------------------------------------------------
  // Reading a line of the worksheet
  // ---------------------------------------------------------------------------------------

  datatype Token = OpToken(op: Op) | Number(value: nat)

  /** A line read to its end, a line with a bad operator (the source panics), or a line on
      which the source's loop stops making progress and never ends. */
  datatype LineScan = Scanned(tokens: seq<Token>) | BadOp(msg: string) | Stuck

  function Prepend(ts: seq<Token>, s: LineScan): LineScan {
    if s.Scanned? then Scanned(ts + s.tokens) else s
  }

  predicate HasOperator(s: string) {
    '+' in s || '*' in s
  }

  function TokenList(t: Option<Token>): seq<Token> {
    if t.Some? then [t.value] else []
  }

  /** One round of the loop of HumanWorksheet::from over a line: while an operator is left
      on the line the next non-whitespace character must be an operator; otherwise the next
      number is read. The token read, if any, and the text left. */
  function LineStep(slice: string): Result<(Option<Token>, string)> {
    if HasOperator(slice) then
      var (c, rest) := NextChar(slice);
      if c.None? then Ok((None, rest))
      else
        match OpOf(c.value)
        case Err(msg) => Err(msg)
        case Ok(op) => Ok((Some(OpToken(op)), rest))
    else
      var (num, rest) := EatNumberSkipping(slice, IsWhitespace);
      Ok((if num.Some? then Some(Number(num.value)) else None, rest))
  }

  /** The loop of HumanWorksheet::from over one line, round after round until the line is
      used up; a round that consumes nothing sends the loop round for ever. */
  function ScanLine(slice: string): LineScan
    decreases |slice|
  {
    if slice == [] then Scanned([])
    else
      match LineStep(slice)
      case Err(msg) => BadOp(msg)
      case Ok((t, rest)) => if |rest| >= |slice| then Stuck else Prepend(TokenList(t), ScanLine(rest))
  }

  function OpsIn(ts: seq<Token>): seq<Op> {
    if ts == [] then []
    else OpsIn(ts[..|ts| - 1]) + (if ts[|ts| - 1].OpToken? then [ts[|ts| - 1].op] else [])
  }

  function NumbersIn(ts: seq<Token>): seq<nat> {
    if ts == [] then []
    else NumbersIn(ts[..|ts| - 1]) + (if ts[|ts| - 1].Number? then [ts[|ts| - 1].value] else [])
  }

  lemma OpsNumbersSnoc(ts: seq<Token>, t: Token)
    ensures OpsIn(ts + [t]) == OpsIn(ts) + (if t.OpToken? then [t.op] else [])
    ensures NumbersIn(ts + [t]) == NumbersIn(ts) + (if t.Number? then [t.value] else [])
  {
    assert (ts + [t])[..|ts|] == ts;
  }

  lemma PrependPrepend(a: seq<Token>, b: seq<Token>, s: LineScan)
    ensures Prepend(a, Prepend(b, s)) == Prepend(a + b, s)
  {
    if s.Scanned? {
      assert a + (b + s.tokens) == (a + b) + s.tokens;
    }
  }

  lemma PrependNothing(s: LineScan)
    ensures Prepend([], s) == s
  {
    if s.Scanned? {
      assert [] + s.tokens == s.tokens;
    }
  }

  /** A character that a worksheet line may hold. */
  predicate SheetChar(c: char) {
    IsWhitespace(c) || IsDigit(c) || c == '+' || c == '*'
  }

  ghost predicate SheetLine(s: string) {
    forall i :: 0 <= i < |s| ==> SheetChar(s[i])
  }

  lemma SheetSuffix(s: string, j: nat)
    requires SheetLine(s) && j <= |s|
    ensures SheetLine(s[j..])
  {
    assert forall i :: 0 <= i < |s| - j ==> s[j..][i] == s[j + i];
  }

  /** On a line of worksheet characters, a round consumes at least one character and
      leaves worksheet characters. */
  lemma LineStepShrinks(slice: string)
    requires slice != [] && SheetLine(slice)
    ensures LineStep(slice).Ok? ==>
              var rest := LineStep(slice).value.1;
              |rest| < |slice| && SheetLine(rest)
  {
    if HasOperator(slice) {
      var (c, rest) := NextChar(slice);
      if c.Some? {
        var m := LeadingCount(slice, IsWhitespace);
        assert rest == slice[m + 1..];
        SheetSuffix(slice, m + 1);
      }
    } else {
      EatNumberSkippingRuns(slice, IsWhitespace);
      var m := LeadingCount(slice, IsWhitespace);
      var d := LeadingCount(slice[m..], IsDigit);
      if m == 0 {
        assert slice[0] in slice;
        assert slice[m..][0] == slice[0];
      }
      SheetSuffix(slice, m + d);
    }
  }

  /** A line made only of whitespace, digits and operators never sends the loop round for
      ever. */
  lemma {:induction false} ScanLineHalts(slice: string)
    requires SheetLine(slice)
    ensures ScanLine(slice) != Stuck
    decreases |slice|
  {
    if slice != [] {
      LineStepShrinks(slice);
      if LineStep(slice).Ok? {
        ScanLineHalts(LineStep(slice).value.1);
      }
    }
  }

  // ---------------------------------------------------------------------------------------
  // HumanWorksheet::from
  // ---------------------------------------------------------------------------------------

  /** What the line loop has gathered: every operator and every number in order, and the
      token count of the last line. */
  datatype Sheet = Sheet(ops: seq<Op>, numbers: seq<nat>, lastWidth: Option<nat>)

  /** A run of the source that ends, with its result, or one that never ends. */
  datatype Run<T> = Done(result: Result<T>) | Hangs

  const JAGGED: string := "Jagged worksheet detected!"
  const NO_WIDTH: string := "Width of worksheet couldn't be found!"
  const MISSING_OP: string := "called `Option::unwrap()` on a `None` value"
  const REMAINDER_BY_ZERO: string := "attempt to calculate the remainder with a divisor of zero"

  /** The loop over the lines: each line read to its end; a line whose token count differs
      from the line before it panics. */
  function ScanLines(lines: seq<string>, s: Sheet): Run<Sheet>
    decreases |lines|
  {
    if lines == [] then Done(Ok(s))
    else
      match ScanLine(lines[0])
      case Stuck => Hangs
      case BadOp(msg) => Done(Err(msg))
      case Scanned(tokens) =>
        if s.lastWidth.Some? && s.lastWidth.value != |tokens| then Done(Err(JAGGED))
        else ScanLines(lines[1..], Sheet(s.ops + OpsIn(tokens), s.numbers + NumbersIn(tokens), Some(|tokens|)))
  }

  /** The numbers that go to column c of w: number k goes to column k % w. */
  function ColumnValues(numbers: seq<nat>, w: nat, c: nat): seq<nat>
    requires w > 0
  {
    if numbers == [] then []
    else
      var k := |numbers| - 1;
      ColumnValues(numbers[..k], w, c) + (if k % w == c then [numbers[k]] else [])
  }

  /** One column per token of a line, column i with the i-th operator and the numbers that
      fall to it. */
  function Assemble(s: Sheet): Result<seq<Column>> {
    if s.lastWidth.None? then Err(NO_WIDTH)
    else
      var w := s.lastWidth.value;
      if |s.ops| < w then Err(MISSING_OP)
      else if w == 0 && s.numbers != [] then Err(REMAINDER_BY_ZERO)
      else Ok(seq(w, c requires 0 <= c < w => Column(ColumnValues(s.numbers, w, c), s.ops[c])))
  }

  function HumanOf(input: string): Run<seq<Column>> {
    match ScanLines(Lines(input), Sheet([], [], None))
    case Hangs => Hangs
    case Done(Err(msg)) => Done(Err(msg))
    case Done(Ok(s)) => Done(Assemble(s))
  }

  lemma ColumnValuesStep(numbers: seq<nat>, w: nat, idx: nat, c: nat)
    requires w > 0 && idx < |numbers|
    ensures ColumnValues(numbers[..idx + 1], w, c)
         == ColumnValues(numbers[..idx], w, c) + (if idx % w == c then [numbers[idx]] else [])
  {
    assert numbers[..idx + 1][..idx] == numbers[..idx];
  }

  /** ScanLine one round at a time. */
  lemma ScanLineUnfold(slice: string)
    requires slice != [] && ScanLine(slice) != Stuck
    ensures LineStep(slice).Err? ==> ScanLine(slice) == BadOp(LineStep(slice).msg)
    ensures LineStep(slice).Ok? ==>
      var (t, rest) := LineStep(slice).value;
      |rest| < |slice| && ScanLine(slice) == Prepend(TokenList(t), ScanLine(rest))
  {
  }

  /** What the loop over a line has read: the tokens done so far, pushed onto the
      operators and numbers, followed by the scan of the slice that is left. */
  ghost predicate ReadSoFar(line: string, ops: seq<Op>, numbers: seq<nat>, done: seq<Token>, slice: string,
                            lineOps: seq<Op>, lineNumbers: seq<nat>, width: nat) {
    && Prepend(done, ScanLine(slice)) == ScanLine(line)
    && lineOps == ops + OpsIn(done) && lineNumbers == numbers + NumbersIn(done)
    && width == |done|
  }

  /** A round of the loop that reads a token keeps what the loop has read. */
  lemma ReadStep(line: string, ops: seq<Op>, numbers: seq<nat>, done: seq<Token>, slice: string,
                 t: Option<Token>, rest: string, lineOps: seq<Op>, lineNumbers: seq<nat>, width: nat,
                 lineOps': seq<Op>, lineNumbers': seq<nat>, width': nat)
    requires ScanLine(line) != Stuck && slice != []
    requires ReadSoFar(line, ops, numbers, done, slice, lineOps, lineNumbers, width)
    requires LineStep(slice) == Ok((t, rest))
    requires lineOps' == if t.Some? && t.value.OpToken? then lineOps + [t.value.op] else lineOps
    requires lineNumbers' == if t.Some? && t.value.Number? then lineNumbers + [t.value.value] else lineNumbers
    requires width' == if t.Some? then width + 1 else width
    ensures |rest| < |slice|
    ensures ReadSoFar(line, ops, numbers, done + TokenList(t), rest, lineOps', lineNumbers', width')
  {
    ScanStep(line, done, slice, t, rest);
    PushStep(ops, numbers, done, t, lineOps, lineNumbers, lineOps', lineNumbers');
  }

  /** The scan of the line is the tokens read so far followed by the scan of the rest. */
  lemma ScanStep(line: string, done: seq<Token>, slice: string, t: Option<Token>, rest: string)
    requires ScanLine(line) != Stuck && slice != []
    requires Prepend(done, ScanLine(slice)) == ScanLine(line)
    requires LineStep(slice) == Ok((t, rest))
    ensures |rest| < |slice|
    ensures Prepend(done + TokenList(t), ScanLine(rest)) == ScanLine(line)
  {
    assert ScanLine(slice) != Stuck;
    ScanLineUnfold(slice);
    PrependPrepend(done, TokenList(t), ScanLine(rest));
  }

  /** Pushing a token's operator or number keeps the lists in step with the tokens. */
  lemma PushStep(ops: seq<Op>, numbers: seq<nat>, done: seq<Token>, t: Option<Token>,
                 lineOps: seq<Op>, lineNumbers: seq<nat>, lineOps': seq<Op>, lineNumbers': seq<nat>)
    requires lineOps == ops + OpsIn(done) && lineNumbers == numbers + NumbersIn(done)
    requires lineOps' == if t.Some? && t.value.OpToken? then lineOps + [t.value.op] else lineOps
    requires lineNumbers' == if t.Some? && t.value.Number? then lineNumbers + [t.value.value] else lineNumbers
    ensures lineOps' == ops + OpsIn(done + TokenList(t)) && lineNumbers' == numbers + NumbersIn(done + TokenList(t))
  {
    if t.Some? {
      OpsNumbersSnoc(done, t.value);
      if t.value.OpToken? {
        assert lineOps' == ops + (OpsIn(done) + [t.value.op]);
        assert lineNumbers' == numbers + (NumbersIn(done) + []);
      } else {
        assert lineOps' == ops + (OpsIn(done) + []);
        assert lineNumbers' == numbers + (NumbersIn(done) + [t.value.value]);
      }
    } else {
      assert done + TokenList(t) == done;
    }
  }

  /** A round of the loop that meets a bad operator ends the scan of the whole line there. */
  lemma ReadFails(line: string, done: seq<Token>, slice: string, msg: string)
    requires ScanLine(line) != Stuck && slice != []
    requires Prepend(done, ScanLine(slice)) == ScanLine(line)
    requires LineStep(slice) == Err(msg)
    ensures ScanLine(line) == BadOp(msg)
  {
    assert ScanLine(slice) != Stuck;
    ScanLineUnfold(slice);
  }

  /** One round of the loop of HumanWorksheet::from over a line. */
  method ReadToken(slice: string) returns (r: Result<(Option<Token>, string)>)
    ensures r == LineStep(slice)
  {
    if HasOperator(slice) {
      var c, rest := EatNextCharSkipWhitespace(slice);
      if c.None? {
        return Ok((None, rest));
      }
      var op := OpOf(c.value);
      if op.Err? {
        return Err(op.msg);
      }
      return Ok((Some(OpToken(op.value)), rest));
    } else {
      var num, rest := EatNumberSkipWhitespace(slice);
      return Ok((if num.Some? then Some(Number(num.value)) else None, rest));
    }
  }

  /** The loop of HumanWorksheet::from over one line, pushing each operator and number it
      reads; a bad operator panics. */
  method ReadLine(line: string, ops: seq<Op>, numbers: seq<nat>)
    returns (r: Result<(seq<Op>, seq<nat>, nat)>)
    requires ScanLine(line) != Stuck
    ensures ScanLine(line).BadOp? ==> r == Err(ScanLine(line).msg)
    ensures ScanLine(line).Scanned? ==>
      var tokens := ScanLine(line).tokens;
      r == Ok((ops + OpsIn(tokens), numbers + NumbersIn(tokens), |tokens|))
  {
    ghost var done: seq<Token> := [];
    var lineOps, lineNumbers := ops, numbers;
    var width := 0;
    var slice := line;
    PrependNothing(ScanLine(line));
    while |slice| > 0
      invariant ReadSoFar(line, ops, numbers, done, slice, lineOps, lineNumbers, width)
      decreases |slice|
    {
      var step := ReadToken(slice);
      if step.Err? {
        ReadFails(line, done, slice, step.msg);
        return Err(step.msg);
      }
      var (token, rest) := step.value;
      var lineOps', lineNumbers', width' := lineOps, lineNumbers, width;
      if token.Some? {
        if token.value.OpToken? {
          lineOps' := lineOps + [token.value.op];
        } else {
          lineNumbers' := lineNumbers + [token.value.value];
        }
        width' := width + 1;
      }
      ReadStep(line, ops, numbers, done, slice, token, rest, lineOps, lineNumbers, width, lineOps', lineNumbers', width');
      lineOps, lineNumbers, width := lineOps', lineNumbers', width';
      done := done + TokenList(token);
      slice := rest;
    }
    assert done + [] == done;
    r := Ok((lineOps, lineNumbers, width));
  }

  /** The columns of HumanWorksheet::from: one per token of a line with the operator in
      the same place, then every number pushed to column index % width. */
  method BuildColumns(ops: seq<Op>, numbers: seq<nat>, w: nat) returns (r: Result<seq<Column>>)
    ensures r == Assemble(Sheet(ops, numbers, Some(w)))
  {
    var columns: seq<Column> := [];
    for col := 0 to w
      invariant |columns| == col <= |ops|
      invariant forall c :: 0 <= c < col ==> columns[c] == Column([], ops[c])
    {
      if col >= |ops| {
        return Err(MISSING_OP);
      }
      columns := columns + [Column([], ops[col])];
    }
    for idx := 0 to |numbers|
      invariant |columns| == w <= |ops|
      invariant w == 0 ==> idx == 0
      invariant w > 0 ==> forall c :: 0 <= c < w ==> columns[c] == Column(ColumnValues(numbers[..idx], w, c), ops[c])
    {
      if w == 0 {
        return Err(REMAINDER_BY_ZERO);
      }
      var colNum := idx % w;
      forall c | 0 <= c < w {
        ColumnValuesStep(numbers, w, idx, c);
      }
      columns := columns[colNum := Column(columns[colNum].values + [numbers[idx]], columns[colNum].operation)];
    }
    assert numbers[..|numbers|] == numbers;
    r := Ok(columns);
    assert columns == seq(w, c requires 0 <= c < w => Column(ColumnValues(numbers, w, c), ops[c]));
  }

  /** HumanWorksheet::from. Its loop over a line goes round for ever on some inputs (see
      ScanLine), so it is called only where the source's run ends. */
  method HumanFrom(input: string) returns (r: Result<seq<Column>>)
    requires HumanOf(input).Done?
    ensures r == HumanOf(input).result
  {
    var lines := Lines(input);
    var ops: seq<Op> := [];
    var numbers: seq<nat> := [];
    var lastWidth: Option<nat> := None;
    for i := 0 to |lines|
      invariant ScanLines(lines[i..], Sheet(ops, numbers, lastWidth)) == ScanLines(lines, Sheet([], [], None))
    {
      assert lines[i..][0] == lines[i] && lines[i..][1..] == lines[i + 1..];
      var read := ReadLine(lines[i], ops, numbers);
      if read.Err? {
        return Err(read.msg);
      }
      var (lineOps, lineNumbers, width) := read.value;
      if lastWidth.Some? && lastWidth.value != width {
        return Err(JAGGED);
      }
      ops, numbers, lastWidth := lineOps, lineNumbers, Some(width);
    }
    assert lines[|lines|..] == [];
    if lastWidth.None? {
      return Err(NO_WIDTH);
    }
    r := BuildColumns(ops, numbers, lastWidth.value);
  }

  // ---------------------------------------------------------------------------------------
  // What HumanWorksheet::from reads
  // ---------------------------------------------------------------------------------------

  /** Integer arithmetic behind the column lengths. */
  lemma ColumnLengthStep(k: nat, w: nat, c: nat)
    requires c < w
    ensures (k + w - c) / w == (k + w - 1 - c) / w + (if k % w == c then 1 else 0)
    ensures k % w == c ==> k / w == (k + w - 1 - c) / w
  {
    var q, m := k / w, k % w;
    assert k == w * q + m;
    if m == c {
      DivModUnique(k + w - 1 - c, w, q, w - 1);
      assert k + w - c == w * (q + 1) + 0;
      DivModUnique(k + w - c, w, q + 1, 0);
    } else if m > c {
      assert k + w - 1 - c == w * (q + 1) + (m - 1 - c);
      DivModUnique(k + w - 1 - c, w, q + 1, m - 1 - c);
      assert k + w - c == w * (q + 1) + (m - c);
      DivModUnique(k + w - c, w, q + 1, m - c);
    } else {
      DivModUnique(k + w - 1 - c, w, q, w - 1 - (c - m));
      DivModUnique(k + w - c, w, q, w - (c - m));
    }
  }

  /** Column c of w holds one number for each index that leaves c over on division by w. */
  lemma {:induction false} ColumnValuesLength(numbers: seq<nat>, w: nat, c: nat)
    requires c < w
    ensures |ColumnValues(numbers, w, c)| == (|numbers| + w - 1 - c) / w
  {
    if numbers == [] {
      DivModUnique(w - 1 - c, w, 0, w - 1 - c);
    } else {
      var k := |numbers| - 1;
      ColumnValuesLength(numbers[..k], w, c);
      ColumnLengthStep(k, w, c);
    }
  }

  /** Number k sits at place k / w of column k % w. */
  lemma {:induction false} ColumnValuesAt(numbers: seq<nat>, w: nat, k: nat)
    requires w > 0 && k < |numbers|
    ensures k / w < |ColumnValues(numbers, w, k % w)|
    ensures ColumnValues(numbers, w, k % w)[k / w] == numbers[k]
  {
    var n := |numbers| - 1;
    var c := k % w;
    var init := numbers[..n];
    var before := ColumnValues(init, w, c);
    assert ColumnValues(numbers, w, c) == before + (if n % w == c then [numbers[n]] else []);
    if k == n {
      ColumnValuesLength(init, w, c);
      ColumnLengthStep(k, w, c);
    } else {
      ColumnValuesAt(init, w, k);
      assert init[k] == numbers[k];
    }
  }

  /** The tokens of a line that reads to its end. */
  function LineTokens(line: string): seq<Token> {
    if ScanLine(line).Scanned? then ScanLine(line).tokens else []
  }

  ghost predicate LinesScan(lines: seq<string>) {
    forall k :: 0 <= k < |lines| ==> ScanLine(lines[k]).Scanned?
  }

  ghost predicate SameWidth(lines: seq<string>, w: nat) {
    forall k :: 0 <= k < |lines| ==> |LineTokens(lines[k])| == w
  }

  /** Every operator of the lines, in order. */
  function OpsOfLines(lines: seq<string>): seq<Op> {
    if lines == [] then [] else OpsIn(LineTokens(lines[0])) + OpsOfLines(lines[1..])
  }

  /** Every number of the lines, in order. */
  function NumbersOfLines(lines: seq<string>): seq<nat> {
    if lines == [] then [] else NumbersIn(LineTokens(lines[0])) + NumbersOfLines(lines[1..])
  }

  /** The lines the loop gets through without a panic when it has already gathered s:
      every line reads to its end with the same number of tokens as the line before. */
  ghost predicate Fine(lines: seq<string>, s: Sheet) {
    LinesScan(lines) && (lines == [] ||
      (SameWidth(lines, |LineTokens(lines[0])|)
       && (s.lastWidth.Some? ==> s.lastWidth.value == |LineTokens(lines[0])|)))
  }

  /** The sheet the loop ends with when it gets through the lines. */
  function Gathered(lines: seq<string>, s: Sheet): Sheet {
    Sheet(s.ops + OpsOfLines(lines), s.numbers + NumbersOfLines(lines),
          if lines == [] then s.lastWidth else Some(|LineTokens(lines[0])|))
  }

  lemma LinesScanCons(lines: seq<string>)
    requires lines != []
    ensures LinesScan(lines) <==> ScanLine(lines[0]).Scanned? && LinesScan(lines[1..])
  {
    var rest := lines[1..];
    if ScanLine(lines[0]).Scanned? && LinesScan(rest) {
      forall k | 0 <= k < |lines| ensures ScanLine(lines[k]).Scanned? {
        if k > 0 { assert lines[k] == rest[k - 1]; }
      }
    }
    if LinesScan(lines) {
      forall k | 0 <= k < |rest| ensures ScanLine(rest[k]).Scanned? {
        assert rest[k] == lines[k + 1];
      }
    }
  }

  lemma SameWidthCons(lines: seq<string>, w: nat)
    requires lines != []
    ensures SameWidth(lines, w) <==> |LineTokens(lines[0])| == w && SameWidth(lines[1..], w)
  {
    var rest := lines[1..];
    if |LineTokens(lines[0])| == w && SameWidth(rest, w) {
      forall k | 0 <= k < |lines| ensures |LineTokens(lines[k])| == w {
        if k > 0 { assert lines[k] == rest[k - 1]; }
      }
    }
    if SameWidth(lines, w) {
      forall k | 0 <= k < |rest| ensures |LineTokens(rest[k])| == w {
        assert rest[k] == lines[k + 1];
      }
    }
  }

  lemma FineCons(lines: seq<string>, s: Sheet, tokens: seq<Token>)
    requires lines != [] && ScanLine(lines[0]) == Scanned(tokens)
    ensures Fine(lines, s) <==>
      && (s.lastWidth.Some? ==> s.lastWidth.value == |tokens|)
      && Fine(lines[1..], Sheet(s.ops + OpsIn(tokens), s.numbers + NumbersIn(tokens), Some(|tokens|)))
  {
    LinesScanCons(lines);
    SameWidthCons(lines, |tokens|);
    assert LineTokens(lines[0]) == tokens;
    if |lines| > 1 {
      assert lines[1..][0] == lines[1];
      SameWidthCons(lines[1..], |tokens|);
    }
  }

  lemma GatheredCons(lines: seq<string>, s: Sheet, tokens: seq<Token>)
    requires lines != [] && ScanLine(lines[0]) == Scanned(tokens)
    requires |lines| > 1 ==> |LineTokens(lines[1])| == |tokens|
    ensures Gathered(lines, s)
         == Gathered(lines[1..], Sheet(s.ops + OpsIn(tokens), s.numbers + NumbersIn(tokens), Some(|tokens|)))
  {
    var rest := lines[1..];
    assert LineTokens(lines[0]) == tokens;
    assert OpsOfLines(lines) == OpsIn(tokens) + OpsOfLines(rest);
    assert NumbersOfLines(lines) == NumbersIn(tokens) + NumbersOfLines(rest);
    AppendAssoc(s.ops, OpsIn(tokens), OpsOfLines(rest));
    AppendAssoc(s.numbers, NumbersIn(tokens), NumbersOfLines(rest));
    if rest != [] {
      assert rest[0] == lines[1];
    }
  }

  /** The line loop ends without a panic exactly when every line reads to its end with the
      same number of tokens as the line before, and then it has gathered every operator
      and every number in order. */
  lemma {:induction false} ScanLinesSpec(lines: seq<string>, s: Sheet)
    ensures (ScanLines(lines, s).Done? && ScanLines(lines, s).result.Ok?) <==> Fine(lines, s)
    ensures Fine(lines, s) ==> ScanLines(lines, s) == Done(Ok(Gathered(lines, s)))
    decreases |lines|
  {
    if lines == [] {
      assert s.ops + [] == s.ops && s.numbers + [] == s.numbers;
    } else {
      var t := ScanLine(lines[0]);
      if t.Scanned? {
        var s' := Sheet(s.ops + OpsIn(t.tokens), s.numbers + NumbersIn(t.tokens), Some(|t.tokens|));
        ScanLinesSpec(lines[1..], s');
        FineCons(lines, s, t.tokens);
        if Fine(lines, s) {
          if |lines| > 1 {
            assert |LineTokens(lines[1])| == |LineTokens(lines[0])|;
          }
          GatheredCons(lines, s, t.tokens);
        }
      }
    }
  }

  /** A worksheet whose lines hold no tokens holds no numbers. */
  lemma {:induction false} NoTokensNoNumbers(lines: seq<string>)
    requires SameWidth(lines, 0)
    ensures NumbersOfLines(lines) == []
  {
    if lines != [] {
      assert forall k :: 0 <= k < |lines[1..]| ==> lines[1..][k] == lines[k + 1];
      NoTokensNoNumbers(lines[1..]);
      assert LineTokens(lines[0]) == [];
    }
  }

  /** The width of the worksheet: the token count of its first line. */
  function SheetWidth(lines: seq<string>): nat {
    if lines == [] then 0 else |LineTokens(lines[0])|
  }

  /** HumanWorksheet::from succeeds exactly when there is a line, every line reads to its
      end with the same number of tokens, and there are at least that many operators. */
  lemma HumanOfOk(input: string)
    ensures var lines := Lines(input);
            (HumanOf(input).Done? && HumanOf(input).result.Ok?) <==>
              && lines != []
              && LinesScan(lines)
              && SameWidth(lines, SheetWidth(lines))
              && SheetWidth(lines) <= |OpsOfLines(lines)|
  {
    var lines := Lines(input);
    ScanLinesSpec(lines, Sheet([], [], None));
    assert [] + OpsOfLines(lines) == OpsOfLines(lines);
    assert [] + NumbersOfLines(lines) == NumbersOfLines(lines);
    if lines != [] && SameWidth(lines, 0) {
      NoTokensNoNumbers(lines);
    }
  }

  /** Column c has the c-th operator read. */
  ghost predicate OperatorsInPlace(cols: seq<Column>, ops: seq<Op>) {
    |cols| <= |ops| && forall c :: 0 <= c < |cols| ==> cols[c].operation == ops[c]
  }

  /** Column c of w holds as many numbers as there are indices below |numbers| that leave c
      over on division by w. */
  ghost predicate ColumnLengths(cols: seq<Column>, numbers: seq<nat>) {
    forall c :: 0 <= c < |cols| ==> |cols[c].values| == (|numbers| + |cols| - 1 - c) / |cols|
  }

  /** Number k sits at place k / w of column k % w. */
  ghost predicate DealtOut(cols: seq<Column>, numbers: seq<nat>) {
    forall k :: 0 <= k < |numbers| ==>
      && |cols| > 0
      && k / |cols| < |cols[k % |cols|].values|
      && cols[k % |cols|].values[k / |cols|] == numbers[k]
  }

  /** What Assemble builds, one column per token of a line. */
  lemma AssembleShape(s: Sheet)
    requires Assemble(s).Ok?
    ensures |Assemble(s).value| == s.lastWidth.value
    ensures OperatorsInPlace(Assemble(s).value, s.ops)
    ensures forall c :: 0 <= c < |Assemble(s).value| ==>
              Assemble(s).value[c].values == ColumnValues(s.numbers, s.lastWidth.value, c)
  {
  }

  lemma AssembleLengths(s: Sheet)
    requires Assemble(s).Ok?
    ensures ColumnLengths(Assemble(s).value, s.numbers)
  {
    var cols := Assemble(s).value;
    AssembleShape(s);
    forall c | 0 <= c < |cols| ensures |cols[c].values| == (|s.numbers| + |cols| - 1 - c) / |cols| {
      ColumnValuesLength(s.numbers, |cols|, c);
    }
  }

  lemma AssembleDealt(s: Sheet)
    requires Assemble(s).Ok?
    ensures DealtOut(Assemble(s).value, s.numbers)
  {
    var cols := Assemble(s).value;
    AssembleShape(s);
    forall k | 0 <= k < |s.numbers|
      ensures |cols| > 0 && k / |cols| < |cols[k % |cols|].values| && cols[k % |cols|].values[k / |cols|] == s.numbers[k]
    {
      var w := |cols|;
      ColumnValuesAt(s.numbers, w, k);
      var c := k % w;
      assert cols[c].values == ColumnValues(s.numbers, w, c);
    }
  }

  /** What the line loop gathers on success: every operator and number in order and the
      token count of the lines. */
  lemma HumanOfSheet(input: string)
    requires HumanOf(input).Done? && HumanOf(input).result.Ok?
    ensures var lines := Lines(input);
            && ScanLines(lines, Sheet([], [], None))
               == Done(Ok(Sheet(OpsOfLines(lines), NumbersOfLines(lines), Some(SheetWidth(lines)))))
            && HumanOf(input).result
               == Assemble(Sheet(OpsOfLines(lines), NumbersOfLines(lines), Some(SheetWidth(lines))))
  {
    var lines := Lines(input);
    HumanOfOk(input);
    ScanLinesSpec(lines, Sheet([], [], None));
    assert [] + OpsOfLines(lines) == OpsOfLines(lines);
    assert [] + NumbersOfLines(lines) == NumbersOfLines(lines);
  }

  /** On success there is one column per token of a line; column c has the c-th operator
      read, and number k read goes to place k / w of column k % w. */
  lemma HumanOfColumns(input: string)
    requires HumanOf(input).Done? && HumanOf(input).result.Ok?
    ensures var lines := Lines(input);
            var cols := HumanOf(input).result.value;
            && |cols| == SheetWidth(lines)
            && OperatorsInPlace(cols, OpsOfLines(lines))
            && ColumnLengths(cols, NumbersOfLines(lines))
            && DealtOut(cols, NumbersOfLines(lines))
  {
    var lines := Lines(input);
    HumanOfSheet(input);
    var s := Sheet(OpsOfLines(lines), NumbersOfLines(lines), Some(SheetWidth(lines)));
    AssembleShape(s);
    AssembleLengths(s);
    AssembleDealt(s);
  }

  // ---------------------------------------------------------------------------------------
  // Part one
  // ---------------------------------------------------------------------------------------

  /** star_one: the worksheet read left to right, then the sum of its columns. */
  method StarOne(input: string) returns (r: Result<int>)
    requires HumanOf(input).Done?
    ensures r.Err? <==> HumanOf(input).result.Err?
    ensures r.Ok? ==> r.value == Total(HumanOf(input).result.value)
  {
    var sheet := HumanFrom(input);
    if sheet.Err? {
      return Err(sheet.msg);
    }
    var total := SolveAll(sheet.value);
    return Ok(total);
  }
}
