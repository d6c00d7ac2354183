/** Helpers shared by the puzzle solvers: failure-carrying results, ASCII decimal digits,
    the unsigned-integer text format that Rust's `str::parse` accepts, and the two ways
    the solvers cut their input apart (`str::lines` and `str::split`). */
module Common {

  datatype Option<T> = None | Some(value: T)

  /** A computation that either produces a value or stops with a message (a panic in the source). */
  datatype Result<T> = Ok(value: T) | Err(msg: string)

  // ---------------------------------------------------------------------------------------
  // Decimal digits
  // ---------------------------------------------------------------------------------------

  predicate IsDigit(c: char) {
    '0' <= c <= '9'
  }

  predicate AllDigits(s: string) {
    forall i :: 0 <= i < |s| ==> IsDigit(s[i])
  }

  function DigitValue(c: char): (d: nat)
    requires IsDigit(c)
    ensures d < 10
  {
    c as int - '0' as int
  }

  function DigitChar(d: nat): (c: char)
    requires d < 10
    ensures IsDigit(c) && DigitValue(c) == d
  {
    ('0' as int + d) as char
  }

  function Pow10(k: nat): (p: nat)
    ensures p >= 1
  {
    if k == 0 then 1 else 10 * Pow10(k - 1)
  }

  /** The value of a digit string read left to right, as `num = num * 10 + digit` does. */
  function DigitsValue(s: string): nat
    requires AllDigits(s)
  {
    if s == [] then 0 else DigitsValue(s[..|s| - 1]) * 10 + DigitValue(s[|s| - 1])
  }

  lemma {:induction false} DigitsValueBound(s: string)
    requires AllDigits(s)
    ensures DigitsValue(s) < Pow10(|s|)
  {
    if s != [] {
      DigitsValueBound(s[..|s| - 1]);
    }
  }

  /** Reading one more digit: the step every digit-eating loop performs. */
  lemma DigitsValueSnoc(s: string, c: char)
    requires AllDigits(s) && IsDigit(c)
    ensures AllDigits(s + [c]) && DigitsValue(s + [c]) == DigitsValue(s) * 10 + DigitValue(c)
  {
    assert (s + [c])[..|s + [c]| - 1] == s;
  }

  /** `n.to_string()` for an unsigned integer: no sign, no leading zero. */
  function DecimalString(n: nat): (s: string)
    ensures |s| >= 1 && AllDigits(s)
    ensures |s| > 1 ==> s[0] != '0'
  {
    if n < 10 then [DigitChar(n)] else DecimalString(n / 10) + [DigitChar(n % 10)]
  }

  lemma {:induction false} DecimalStringRoundTrip(n: nat)
    ensures DigitsValue(DecimalString(n)) == n
  {
    if n >= 10 {
      DecimalStringRoundTrip(n / 10);
      DigitsValueSnoc(DecimalString(n / 10), DigitChar(n % 10));
    }
  }

  // ---------------------------------------------------------------------------------------
  // Rust's `str::parse` for unsigned integer types
  // ---------------------------------------------------------------------------------------

  /** The text after an optional leading '+', which Rust accepts before an unsigned number. */
  function UnsignedDigits(s: string): string {
    if |s| > 0 && s[0] == '+' then s[1..] else s
  }

  /** `s.parse::<uN>()` where `max` is the largest value of the type: an optional '+', then at
      least one ASCII digit and nothing else, with a value that fits the type. */
  function ParseUnsigned(s: string, max: nat): (r: Result<nat>)
    ensures r.Ok? <==> (UnsignedDigits(s) != [] && AllDigits(UnsignedDigits(s))
                        && DigitsValue(UnsignedDigits(s)) <= max)
    ensures r.Ok? ==> r.value <= max && r.value == DigitsValue(UnsignedDigits(s))
  {
    var digits := UnsignedDigits(s);
    if digits == [] then Err("cannot parse integer from empty string")
    else if !AllDigits(digits) then Err("invalid digit found in string")
    else if DigitsValue(digits) > max then Err("number too large to fit in target type")
    else Ok(DigitsValue(digits))
  }

  /** Printing a number and parsing it back gives the number, exactly when it fits the type. */
  lemma ParseDecimalString(n: nat, max: nat)
    ensures ParseUnsigned(DecimalString(n), max) == if n <= max then Ok(n) else Err("number too large to fit in target type")
  {
    DecimalStringRoundTrip(n);
    assert UnsignedDigits(DecimalString(n)) == DecimalString(n);
  }

  const U8_MAX: nat := 255
  const U16_MAX: nat := 65535
  const U64_MAX: nat := 0xFFFF_FFFF_FFFF_FFFF
  const U128_MAX: nat := 0xFFFF_FFFF_FFFF_FFFF_FFFF_FFFF_FFFF_FFFF
  /** `usize::MAX` on a 64-bit target: the "no answer" value of the day 10 searches. */
  const USIZE_MAX: nat := U64_MAX

  // ---------------------------------------------------------------------------------------
  // Cutting text apart
  // ---------------------------------------------------------------------------------------

  /** Index of the first `c` in `s`, or |s| when there is none. */
  function IndexOf(s: string, c: char): (i: nat)
    ensures i <= |s|
    ensures i < |s| ==> s[i] == c
    ensures forall k :: 0 <= k < i ==> s[k] != c
  {
    if s == [] then 0 else if s[0] == c then 0 else 1 + IndexOf(s[1..], c)
  }

  /** `s.split(c)`: the pieces between the separators; an empty text is one empty piece. */
  function Split(s: string, c: char): (pieces: seq<string>)
    ensures |pieces| >= 1
    ensures forall k, j :: 0 <= k < |pieces| && 0 <= j < |pieces[k]| ==> pieces[k][j] != c
    decreases |s|
  {
    var i := IndexOf(s, c);
    if i == |s| then [s] else [s[..i]] + Split(s[i + 1..], c)
  }

  function Join(pieces: seq<string>, c: char): string
    requires |pieces| >= 1
  {
    if |pieces| == 1 then pieces[0] else pieces[0] + [c] + Join(pieces[1..], c)
  }

  /** Splitting loses nothing: joining the pieces with the separator gives the text back. */
  lemma {:induction false} SplitJoin(s: string, c: char)
    ensures Join(Split(s, c), c) == s
    decreases |s|
  {
    var i := IndexOf(s, c);
    if i < |s| {
      var rest := Split(s[i + 1..], c);
      SplitJoin(s[i + 1..], c);
      var pieces := Split(s, c);
      assert pieces == [s[..i]] + rest;
      assert pieces[0] == s[..i] && pieces[1..] == rest;
      assert Join(pieces, c) == s[..i] + [c] + Join(rest, c);
      assert s == s[..i] + [c] + s[i + 1..];
    }
  }

  lemma {:induction false} IndexOfAbsent(s: string, c: char)
    requires forall j :: 0 <= j < |s| ==> s[j] != c
    ensures IndexOf(s, c) == |s|
  {
    if s != [] {
      IndexOfAbsent(s[1..], c);
    }
  }

  /** Text without the separator is a single piece. */
  lemma SplitAbsent(s: string, c: char)
    requires forall j :: 0 <= j < |s| ==> s[j] != c
    ensures Split(s, c) == [s]
  {
    IndexOfAbsent(s, c);
  }

  /** The first separator ends the first piece. */
  lemma SplitFirst(a: string, b: string, c: char)
    requires forall j :: 0 <= j < |a| ==> a[j] != c
    ensures Split(a + [c] + b, c) == [a] + Split(b, c)
  {
    var s := a + [c] + b;
    IndexOfPrefix(a, [c] + b, c);
    assert s == a + ([c] + b);
    assert s[..|a|] == a && s[|a| + 1..] == b;
  }

  function StripTrailingCR(line: string): string {
    if |line| > 0 && line[|line| - 1] == '\r' then line[..|line| - 1] else line
  }

  /** `s.lines()`: pieces ended by "\n" or "\r\n"; the last line ending is optional, and no
      empty line follows a final line ending. A '\r' that does not come before '\n' stays. */
  function Lines(s: string): (lines: seq<string>)
    ensures forall k, j :: 0 <= k < |lines| && 0 <= j < |lines[k]| ==> lines[k][j] != '\n'
    ensures |lines| == 0 <==> s == []
    decreases |s|
  {
    if s == [] then []
    else
      var i := IndexOf(s, '\n');
      if i == |s| then [s] else [StripTrailingCR(s[..i])] + Lines(s[i + 1..])
  }

  /** Every line-terminated piece, written back with its "\n", reproduces the text. */
  lemma {:induction false} LinesOfJoined(lines: seq<string>)
    requires forall k, j :: 0 <= k < |lines| && 0 <= j < |lines[k]| ==> lines[k][j] != '\n' && lines[k][j] != '\r'
    ensures Lines(JoinTerminated(lines)) == lines
  {
    if lines != [] {
      var rest := JoinTerminated(lines[1..]);
      var s := JoinTerminated(lines);
      var l := lines[0];
      assert s == l + ("\n" + rest);
      IndexOfPrefix(l, "\n" + rest, '\n');
      assert s[..|l|] == l;
      assert s[|l| + 1..] == rest;
      assert StripTrailingCR(l) == l;
      LinesOfJoined(lines[1..]);
      assert Lines(s) == [l] + Lines(rest);
    }
  }

  /** Each line followed by "\n". */
  function JoinTerminated(lines: seq<string>): string {
    if lines == [] then [] else lines[0] + "\n" + JoinTerminated(lines[1..])
  }

  lemma IndexOfPrefix(a: string, b: string, c: char)
    requires forall j :: 0 <= j < |a| ==> a[j] != c
    requires |b| > 0 && b[0] == c
    ensures IndexOf(a + b, c) == |a|
  {
    if a != [] {
      assert (a + b)[1..] == a[1..] + b;
      IndexOfPrefix(a[1..], b, c);
    } else {
      assert a + b == b;
    }
  }

  /** Number of leading characters of `s` that satisfy `p`. */
  function LeadingCount(s: string, p: char -> bool): (k: nat)
    ensures k <= |s|
    ensures forall j :: 0 <= j < k ==> p(s[j])
    ensures k < |s| ==> !p(s[k])
  {
    if s == [] || !p(s[0]) then 0 else 1 + LeadingCount(s[1..], p)
  }

  function Sum(s: seq<int>): int {
    if s == [] then 0 else Sum(s[..|s| - 1]) + s[|s| - 1]
  }

  function Product(s: seq<int>): int {
    if s == [] then 1 else Product(s[..|s| - 1]) * s[|s| - 1]
  }

  function Count<T>(s: seq<T>, p: T -> bool): nat {
    if s == [] then 0 else Count(s[..|s| - 1], p) + (if p(s[|s| - 1]) then 1 else 0)
  }

  // ---------------------------------------------------------------------------------------
  // Parsing a list of texts, stopping at the first failure
  // ---------------------------------------------------------------------------------------

  /** Every text parsed in order, or the first failure. */
  function ParseEach<T>(texts: seq<string>, parse: string -> Result<T>): Result<seq<T>> {
    if texts == [] then Ok([])
    else
      var first := parse(texts[0]);
      var rest := ParseEach(texts[1..], parse);
      if first.Err? then Err(first.msg)
      else if rest.Err? then Err(rest.msg)
      else Ok([first.value] + rest.value)
  }

  /** The list parses exactly when every text does, and then text by text. */
  lemma ParseEachSpec<T>(texts: seq<string>, parse: string -> Result<T>)
    ensures ParseEach(texts, parse).Ok? ==> |ParseEach(texts, parse).value| == |texts|
    ensures ParseEach(texts, parse).Ok? ==>
      forall k :: 0 <= k < |texts| ==> parse(texts[k]) == Ok(ParseEach(texts, parse).value[k])
    ensures ParseEach(texts, parse).Err? <==> exists k :: 0 <= k < |texts| && parse(texts[k]).Err?
  {
    if ParseEach(texts, parse).Ok? {
      ParseEachLength(texts, parse);
      forall k | 0 <= k < |texts| ensures parse(texts[k]) == Ok(ParseEach(texts, parse).value[k]) {
        ParseEachAt(texts, parse, k);
      }
    } else {
      ParseEachErrWitness(texts, parse);
    }
  }

  lemma {:induction false} ParseEachLength<T>(texts: seq<string>, parse: string -> Result<T>)
    requires ParseEach(texts, parse).Ok?
    ensures |ParseEach(texts, parse).value| == |texts|
  {
    if texts != [] {
      ParseEachLength(texts[1..], parse);
    }
  }

  lemma {:induction false} ParseEachAt<T>(texts: seq<string>, parse: string -> Result<T>, k: nat)
    requires k < |texts| && ParseEach(texts, parse).Ok?
    ensures k < |ParseEach(texts, parse).value|
    ensures parse(texts[k]) == Ok(ParseEach(texts, parse).value[k])
  {
    var vs := ParseEach(texts, parse).value;
    var rest := ParseEach(texts[1..], parse).value;
    assert vs == [parse(texts[0]).value] + rest;
    if k > 0 {
      ParseEachAt(texts[1..], parse, k - 1);
      assert texts[1..][k - 1] == texts[k];
      assert vs[k] == rest[k - 1];
    }
  }

  lemma {:induction false} ParseEachErrWitness<T>(texts: seq<string>, parse: string -> Result<T>)
    requires ParseEach(texts, parse).Err?
    ensures exists k :: 0 <= k < |texts| && parse(texts[k]).Err?
  {
    if parse(texts[0]).Err? {
      assert parse(texts[0]).Err?;
    } else {
      ParseEachErrWitness(texts[1..], parse);
      var k :| 0 <= k < |texts[1..]| && parse(texts[1..][k]).Err?;
      assert texts[1..][k] == texts[k + 1];
    }
  }

  /** A text that does not parse makes the whole list fail. */
  lemma ParseEachErrAt<T>(texts: seq<string>, parse: string -> Result<T>, i: nat)
    requires i < |texts| && parse(texts[i]).Err?
    ensures ParseEach(texts, parse).Err?
  {
    ParseEachSpec(texts, parse);
  }

  lemma {:induction false} ParseEachAppend<T>(a: seq<string>, x: string, parse: string -> Result<T>, vs: seq<T>, v: T)
    requires ParseEach(a, parse) == Ok(vs) && parse(x) == Ok(v)
    ensures ParseEach(a + [x], parse) == Ok(vs + [v])
  {
    var all := a + [x];
    if a == [] {
      assert all == [x] && all[1..] == [];
      ParseEachCons(all, parse, v, []);
      assert vs == [] && [v] + [] == [] + [v];
    } else {
      assert all[0] == a[0] && all[1..] == a[1..] + [x];
      var v0 := parse(a[0]).value;
      var tail := ParseEach(a[1..], parse).value;
      ParseEachAppend(a[1..], x, parse, tail, v);
      ParseEachCons(all, parse, v0, tail + [v]);
      assert vs == [v0] + tail;
      assert [v0] + (tail + [v]) == vs + [v];
    }
  }

  lemma ParseEachCons<T>(texts: seq<string>, parse: string -> Result<T>, v0: T, rest: seq<T>)
    requires texts != [] && parse(texts[0]) == Ok(v0) && ParseEach(texts[1..], parse) == Ok(rest)
    ensures ParseEach(texts, parse) == Ok([v0] + rest)
  {
  }

  /** One more text that parses extends the parsed prefix by its value. */
  lemma ParseEachSnoc<T>(texts: seq<string>, parse: string -> Result<T>, i: nat, vs: seq<T>, v: T)
    requires i < |texts| && ParseEach(texts[..i], parse) == Ok(vs) && parse(texts[i]) == Ok(v)
    ensures ParseEach(texts[..i + 1], parse) == Ok(vs + [v])
  {
    var a := texts[..i];
    ParseEachAppend(a, texts[i], parse, vs, v);
    TakeSnoc(texts, i);
  }

  lemma AppendAssoc<T>(a: seq<T>, b: seq<T>, c: seq<T>)
    ensures a + b + c == a + (b + c)
  {
  }

  /** A slice one longer is the slice and the next element. */
  lemma SliceSnoc<T>(s: seq<T>, lo: nat, i: nat)
    requires lo <= i < |s|
    ensures s[lo..i + 1] == s[lo..i] + [s[i]]
  {
  }

  /** A prefix one longer is the prefix and the next element. */
  lemma TakeSnoc<T>(s: seq<T>, i: nat)
    requires i < |s|
    ensures s[..i + 1] == s[..i] + [s[i]]
  {
  }

  /** The prefix one longer than s[..i]: its own last element and what comes before it. */
  lemma TakeInit<T>(s: seq<T>, i: nat)
    requires i < |s|
    ensures |s[..i + 1]| == i + 1 && s[..i + 1][..i] == s[..i] && s[..i + 1][i] == s[i]
  {
  }

  lemma CountAppend<T>(a: seq<T>, b: seq<T>, p: T -> bool)
    ensures Count(a + b, p) == Count(a, p) + Count(b, p)
    decreases |b|
  {
    if b != [] {
      assert (a + b)[..|a + b| - 1] == a + b[..|b| - 1];
      CountAppend(a, b[..|b| - 1], p);
    } else {
      assert a + b == a;
    }
  }

  /** Counting over one element put in front of the rest. */
  lemma CountCons<T>(x: T, rest: seq<T>, p: T -> bool)
    ensures Count([x] + rest, p) == (if p(x) then 1 else 0) + Count(rest, p)
  {
    CountAppend([x], rest, p);
    assert [x][..0] == [];
  }

  lemma SumAppend(a: seq<int>, b: seq<int>)
    ensures Sum(a + b) == Sum(a) + Sum(b)
    decreases |b|
  {
    if b != [] {
      assert (a + b)[..|a + b| - 1] == a + b[..|b| - 1];
      SumAppend(a, b[..|b| - 1]);
    } else {
      assert a + b == a;
    }
  }

  // ---------------------------------------------------------------------------------------
  // Multiplication and division by a variable
  // ---------------------------------------------------------------------------------------

  lemma MulLe(a: int, b: int, k: int)
    requires a <= b && k >= 0
    ensures a * k <= b * k
  {
  }

  /** One more row of `w` cells. */
  lemma MulSucc(n: int, w: int)
    ensures (n - 1) * w + w == n * w
  {
  }

  /** Division and remainder are determined by any decomposition x == l * q + r with
      0 <= r < l. */
  lemma DivModUnique(x: int, l: int, q: int, r: int)
    requires l > 0 && x == l * q + r && 0 <= r < l
    ensures x / l == q && x % l == r
  {
    var q', r' := x / l, x % l;
    assert x == l * q' + r';
    assert l * (q' - q) == r - r' by {
      assert l * q' - l * q == l * (q' - q);
    }
    if q' > q {
      MulLe(1, q' - q, l);
    } else if q' < q {
      MulLe(1, q - q', l);
    }
  }

  // ---------------------------------------------------------------------------------------
  // Eating a number off the front of a text
  // ---------------------------------------------------------------------------------------

  /** The character-by-character scan that the solvers' number eaters run: characters the
      `skip` test accepts are passed over only while no digit has been read, digits extend
      the number, and any other character stops the scan at its index. */
  function EatFrom(line: string, skip: char -> bool, i: nat, num: Option<nat>): (r: (Option<nat>, nat))
    requires i <= |line|
    ensures r.1 <= |line|
    decreases |line| - i
  {
    if i == |line| then (num, |line|)
    else if skip(line[i]) && num.None? then EatFrom(line, skip, i + 1, num)
    else if IsDigit(line[i]) then
      EatFrom(line, skip, i + 1, Some((if num.Some? then num.value else 0) * 10 + DigitValue(line[i])))
    else (num, i)
  }

  lemma {:induction false} EatFromSkipping(line: string, skip: char -> bool, i: nat)
    requires i <= LeadingCount(line, skip)
    ensures EatFrom(line, skip, i, None) == EatFrom(line, skip, LeadingCount(line, skip), None)
    decreases LeadingCount(line, skip) - i
  {
    if i < LeadingCount(line, skip) {
      EatFromSkipping(line, skip, i + 1);
    }
  }

  /** Reading on through the run of digits line[m..m + d], with the digits before i read
      already, ends after the run with the run's value. */
  lemma {:induction false} EatFromDigits(line: string, skip: char -> bool, m: nat, d: nat, i: nat)
    requires m < i <= m + d <= |line|
    requires AllDigits(line[m..m + d])
    requires m + d == |line| || !IsDigit(line[m + d])
    ensures AllDigits(line[m..i])
    ensures EatFrom(line, skip, i, Some(DigitsValue(line[m..i]))) == (Some(DigitsValue(line[m..m + d])), m + d)
    decreases m + d - i
  {
    var all := line[m..m + d];
    var pre := line[m..i];
    assert pre == all[..i - m];
    if i < m + d {
      assert line[i] == all[i - m];
      EatFromRunStep(line, skip, m, i);
      EatFromDigits(line, skip, m, d, i + 1);
    } else {
      EatFromStop(line, skip, i, Some(DigitsValue(pre)));
    }
  }

  /** The leading run of digits after position m, and what ends it. */
  lemma LeadingDigitsAt(line: string, m: nat, d: nat)
    requires m <= |line| && d == LeadingCount(line[m..], IsDigit)
    ensures m + d <= |line| && AllDigits(line[m..m + d])
    ensures m + d == |line| || !IsDigit(line[m + d])
  {
    var run := line[m..m + d];
    forall j | 0 <= j < d ensures IsDigit(run[j]) {
      assert run[j] == line[m..][j];
    }
    if m + d < |line| {
      assert line[m..][d] == line[m + d];
    }
  }

  lemma EatFromNoDigits(line: string, skip: char -> bool, m: nat)
    requires m == LeadingCount(line, skip) && LeadingCount(line[m..], IsDigit) == 0
    ensures EatFrom(line, skip, m, None) == (None, m)
  {
    if m < |line| {
      assert line[m..][0] == line[m];
    }
  }

  lemma EatFromFirstDigit(line: string, skip: char -> bool, m: nat)
    requires m == LeadingCount(line, skip) && LeadingCount(line[m..], IsDigit) > 0
    ensures EatFrom(line, skip, m, None) == EatFrom(line, skip, m + 1, Some(DigitsValue(line[m..m + 1])))
  {
    assert line[m..][0] == line[m];
    assert m < |line| && IsDigit(line[m]) && !skip(line[m]);
    OneDigitValue(line[m]);
    assert line[m..m + 1] == [line[m]];
    EatFromFirstStep(line, skip, m);
  }

  lemma EatFromFirstStep(line: string, skip: char -> bool, i: nat)
    requires i < |line| && !skip(line[i]) && IsDigit(line[i])
    ensures EatFrom(line, skip, i, None) == EatFrom(line, skip, i + 1, Some(DigitValue(line[i])))
  {
    EatFromDigitStep(line, skip, i, None);
  }

  lemma OneDigitValue(c: char)
    requires IsDigit(c)
    ensures AllDigits([c]) && DigitsValue([c]) == DigitValue(c)
  {
    assert [c][..0] == [];
  }

  /** One more digit of a run read: the value so far gains that digit. */
  lemma EatFromRunStep(line: string, skip: char -> bool, m: nat, i: nat)
    requires m < i < |line| && AllDigits(line[m..i]) && IsDigit(line[i])
    ensures AllDigits(line[m..i + 1])
    ensures EatFrom(line, skip, i, Some(DigitsValue(line[m..i])))
         == EatFrom(line, skip, i + 1, Some(DigitsValue(line[m..i + 1])))
  {
    var pre := line[m..i];
    var c := line[i];
    DigitsValueSnoc(pre, c);
    assert pre + [c] == line[m..i + 1];
    EatFromDigitStep(line, skip, i, Some(DigitsValue(pre)));
  }

  lemma EatFromStop(line: string, skip: char -> bool, i: nat, num: Option<nat>)
    requires i <= |line| && num.Some? && (i == |line| || !IsDigit(line[i]))
    ensures EatFrom(line, skip, i, num) == (num, i)
  {
  }

  lemma EatFromDigitStep(line: string, skip: char -> bool, i: nat, num: Option<nat>)
    requires i < |line| && !(skip(line[i]) && num.None?) && IsDigit(line[i])
    ensures EatFrom(line, skip, i, num)
         == EatFrom(line, skip, i + 1, Some((if num.Some? then num.value else 0) * 10 + DigitValue(line[i])))
  {
  }

  /** The scan from the start, described as runs: the longest run of skipped characters,
      then the longest run of digits after it. */
  lemma EatFromRuns(line: string, skip: char -> bool)
    ensures var m := LeadingCount(line, skip);
            var d := LeadingCount(line[m..], IsDigit);
            && AllDigits(line[m..m + d])
            && EatFrom(line, skip, 0, None)
               == (if d == 0 then None else Some(DigitsValue(line[m..m + d])), m + d)
  {
    var m := LeadingCount(line, skip);
    var d := LeadingCount(line[m..], IsDigit);
    LeadingDigitsAt(line, m, d);
    EatFromSkipping(line, skip, 0);
    if d == 0 {
      EatFromNoDigits(line, skip, m);
    } else {
      EatFromNumber(line, skip, m, d);
    }
  }

  lemma EatFromNumber(line: string, skip: char -> bool, m: nat, d: nat)
    requires m == LeadingCount(line, skip) && d == LeadingCount(line[m..], IsDigit) && d > 0
    requires m + d <= |line| && AllDigits(line[m..m + d])
    requires m + d == |line| || !IsDigit(line[m + d])
    ensures EatFrom(line, skip, m, None) == (Some(DigitsValue(line[m..m + d])), m + d)
  {
    EatFromFirstDigit(line, skip, m);
    EatFromDigits(line, skip, m, d, m + 1);
  }

  /** The number at the front of `line` after skipped characters, and the text after it. */
  function EatNumberSkipping(line: string, skip: char -> bool): (Option<nat>, string) {
    var res := EatFrom(line, skip, 0, None);
    (res.0, line[res.1..])
  }

  /** The scan described as two runs: first the longest run of skipped characters, then the
      longest run of digits after it. With no digit there the number is None and the text
      left starts at the first unskipped character. */
  lemma EatNumberSkippingRuns(line: string, skip: char -> bool)
    ensures var m := LeadingCount(line, skip);
            var d := LeadingCount(line[m..], IsDigit);
            var r := EatNumberSkipping(line, skip);
            && AllDigits(line[m..m + d])
            && r.1 == line[m + d..]
            && r.0 == if d == 0 then None else Some(DigitsValue(line[m..m + d]))
  {
    EatFromRuns(line, skip);
  }

  /** The same, for a scan already taken apart into its number and the text left. */
  lemma EatenAsRuns(line: string, skip: char -> bool, num: Option<nat>, rest: string)
    requires (num, rest) == EatNumberSkipping(line, skip)
    ensures var m := LeadingCount(line, skip);
            var d := LeadingCount(line[m..], IsDigit);
            && AllDigits(line[m..m + d])
            && rest == line[m + d..]
            && num == if d == 0 then None else Some(DigitsValue(line[m..m + d]))
  {
    EatNumberSkippingRuns(line, skip);
  }


  // ---------------------------------------------------------------------------------------
  // The bytes of a text (`str::as_bytes`)
  // ---------------------------------------------------------------------------------------

  /** The UTF-8 encoding of one character: one byte below 0x80, then two, three or four
      bytes, a lead byte tagged with the length and continuation bytes holding six bits
      each. */
  function Utf8(c: char): (bytes: seq<nat>)
    ensures 1 <= |bytes| <= 4
    ensures |bytes| == 1 <==> c as int < 0x80
    ensures |bytes| == 1 ==> bytes[0] == c as int
    ensures |bytes| > 1 ==> forall k :: 0 <= k < |bytes| ==> 0x80 <= bytes[k] < 0x100
  {
    var n := c as int;
    if n < 0x80 then [n]
    else if n < 0x800 then [0xC0 + n / 0x40, 0x80 + n % 0x40]
    else if n < 0x1_0000 then [0xE0 + n / 0x1000, 0x80 + n / 0x40 % 0x40, 0x80 + n % 0x40]
    else [0xF0 + n / 0x4_0000, 0x80 + n / 0x1000 % 0x40, 0x80 + n / 0x40 % 0x40, 0x80 + n % 0x40]
  }

  /** The character a well-formed UTF-8 sequence of one to four bytes stands for. */
  function Utf8Value(bytes: seq<nat>): int
    requires 1 <= |bytes| <= 4
  {
    if |bytes| == 1 then bytes[0]
    else if |bytes| == 2 then (bytes[0] as int - 0xC0) * 0x40 + (bytes[1] as int - 0x80)
    else if |bytes| == 3 then (bytes[0] as int - 0xE0) * 0x1000 + (bytes[1] as int - 0x80) * 0x40 + (bytes[2] as int - 0x80)
    else (bytes[0] as int - 0xF0) * 0x4_0000 + (bytes[1] as int - 0x80) * 0x1000 + (bytes[2] as int - 0x80) * 0x40 + (bytes[3] as int - 0x80)
  }

  /** The lead byte tells the length, every later byte is a continuation byte, and the
      bytes decode back to the character. */
  lemma Utf8RoundTrip(c: char)
    ensures var bytes := Utf8(c);
            && (|bytes| == 2 <==> 0xC0 <= bytes[0] < 0xE0)
            && (|bytes| == 3 <==> 0xE0 <= bytes[0] < 0xF0)
            && (|bytes| == 4 <==> 0xF0 <= bytes[0] < 0xF8)
            && (forall k :: 1 <= k < |bytes| ==> 0x80 <= bytes[k] < 0xC0)
            && Utf8Value(bytes) == c as int
  {
    var n := c as int;
    if n >= 0x1_0000 {
      FourByteDigits(n);
    } else if n >= 0x800 {
      ThreeByteDigits(n);
    }
  }

  /** The six-bit groups of a value of up to sixteen bits put it back together. */
  lemma ThreeByteDigits(n: int)
    requires 0x800 <= n < 0x1_0000
    ensures 0xE0 <= 0xE0 + n / 0x1000 < 0xF0
    ensures n / 0x1000 * 0x1000 + n / 0x40 % 0x40 * 0x40 + n % 0x40 == n
  {
    var b := n / 0x40;
    assert b == (n / 0x1000) * 0x40 + b % 0x40;
  }

  /** The six-bit groups of a value of up to twenty-one bits put it back together. */
  lemma FourByteDigits(n: int)
    requires 0x1_0000 <= n < 0x11_0000
    ensures 0xF0 <= 0xF0 + n / 0x4_0000 < 0xF8
    ensures n / 0x4_0000 * 0x4_0000 + n / 0x1000 % 0x40 * 0x1000 + n / 0x40 % 0x40 * 0x40 + n % 0x40 == n
  {
    var a, b, d := n / 0x1000, n / 0x40, n % 0x40;
    assert n == a * 0x1000 + (b % 0x40) * 0x40 + d by {
      assert b == a * 0x40 + b % 0x40;
      assert n == b * 0x40 + d;
    }
    assert a == (n / 0x4_0000) * 0x40 + a % 0x40;
  }

  /** The bytes of a text: the characters' encodings one after another. */
  function Utf8Of(s: string): (bytes: seq<nat>)
    ensures |bytes| >= |s|
  {
    if s == [] then [] else Utf8(s[0]) + Utf8Of(s[1..])
  }

  /** A text of characters below 0x80 is its own bytes. */
  lemma {:induction false} Utf8OfAscii(s: string)
    requires forall k :: 0 <= k < |s| ==> s[k] as int < 0x80
    ensures Utf8Of(s) == seq(|s|, k requires 0 <= k < |s| => s[k] as int)
  {
    if s != [] {
      Utf8OfAscii(s[1..]);
    }
  }

  /** A byte below a bound under 0x80 comes only from a character below that bound. */
  lemma {:induction false} Utf8OfBelow(s: string, bound: nat)
    requires bound <= 0x80
    ensures (exists k :: 0 <= k < |Utf8Of(s)| && Utf8Of(s)[k] < bound)
        <==> (exists k :: 0 <= k < |s| && (s[k] as int) < bound)
  {
    if s != [] {
      Utf8OfBelow(s[1..], bound);
      var head, rest := Utf8(s[0]), Utf8Of(s[1..]);
      var bytes := head + rest;
      assert Utf8Of(s) == bytes;
      if exists k :: 0 <= k < |bytes| && bytes[k] < bound {
        var k :| 0 <= k < |bytes| && bytes[k] < bound;
        if k >= |head| {
          assert rest[k - |head|] == bytes[k];
          var j :| 0 <= j < |s[1..]| && (s[1..][j] as int) < bound;
          assert s[j + 1] == s[1..][j];
        }
      }
      if exists k :: 0 <= k < |s| && (s[k] as int) < bound {
        var k :| 0 <= k < |s| && (s[k] as int) < bound;
        if k == 0 {
          assert bytes[0] == head[0];
        } else {
          assert s[1..][k - 1] == s[k];
          var j :| 0 <= j < |rest| && rest[j] < bound;
          assert bytes[|head| + j] == rest[j];
        }
      }
    }
  }

}
