/** The two helpers of the command-line front end: the check on the `--day` option and the
    text that reports how long a solver ran. */
module Cli {
  import opened Common

  // ---------------------------------------------------------------------------------------
  // parse_day
  // ---------------------------------------------------------------------------------------

  const NOT_A_NUMBER: string := "Not a valid number"
  const OUT_OF_RANGE: string := "--day must be between 1 and 25"

  /** `--day` is read as a u8 and must lie in the range 1..26, whose upper end is excluded. */
  function ParseDay(s: string): (r: Result<nat>)
    ensures r.Ok? ==> 1 <= r.value <= 25
    ensures r.Err? ==> r.msg == NOT_A_NUMBER || r.msg == OUT_OF_RANGE
  {
    var num := ParseUnsigned(s, U8_MAX);
    if num.Err? then Err(NOT_A_NUMBER)
    else if 1 <= num.value < 26 then Ok(num.value)
    else Err(OUT_OF_RANGE)
  }

  /** A day is accepted exactly when the text is a u8 from 1 to 25, and it is that number;
      a u8 outside the range and a text that is no u8 get their own messages. */
  lemma ParseDayMeaning(s: string)
    ensures ParseDay(s).Ok? <==> ParseUnsigned(s, U8_MAX).Ok? && 1 <= ParseUnsigned(s, U8_MAX).value <= 25
    ensures ParseDay(s).Ok? ==> ParseDay(s).value == ParseUnsigned(s, U8_MAX).value
    ensures ParseUnsigned(s, U8_MAX).Err? ==> ParseDay(s) == Err(NOT_A_NUMBER)
  {
  }

  /** Every day written out in decimal is accepted as itself, 0 and 26..255 are out of
      range, and anything past a u8 is not a number. */
  lemma ParseDayDecimal(n: nat)
    ensures ParseDay(DecimalString(n)) ==
      if 1 <= n <= 25 then Ok(n) else if n <= U8_MAX then Err(OUT_OF_RANGE) else Err(NOT_A_NUMBER)
  {
    ParseDecimalString(n, U8_MAX);
  }

  // ---------------------------------------------------------------------------------------
  // format_duration: the clock fields
  // ---------------------------------------------------------------------------------------

  const NANOS_PER_SECOND: nat := 1_000_000_000
  const NANOS_PER_MINUTE: nat := 60_000_000_000
  const NANOS_PER_HOUR: nat := 3_600_000_000_000
  const NANOS_PER_DAY: nat := 86_400_000_000_000

  /** The hours field: whole hours, wrapped at a day. */
  function Hours(totalNanos: nat): (h: nat)
    ensures h < 24
  {
    (totalNanos / NANOS_PER_HOUR) % 24
  }

  /** The minutes field: whole minutes, wrapped at an hour. */
  function Minutes(totalNanos: nat): (m: nat)
    ensures m < 60
  {
    (totalNanos / NANOS_PER_MINUTE) % 60
  }

  /** The seconds field: whole seconds, wrapped at a minute. */
  function Seconds(totalNanos: nat): (s: nat)
    ensures s < 60
  {
    (totalNanos / NANOS_PER_SECOND) % 60
  }

  /** The nanoseconds field: what is left below a second. */
  function Nanos(totalNanos: nat): (ns: nat)
    ensures ns < NANOS_PER_SECOND
  {
    totalNanos % NANOS_PER_SECOND
  }

  /** The four fields are the time of day the duration reaches: put back together they give
      the duration modulo one day. */
  lemma {:induction false} ClockFields(totalNanos: nat)
    ensures var h, m, s, ns := Hours(totalNanos), Minutes(totalNanos), Seconds(totalNanos), Nanos(totalNanos);
      ((h * 60 + m) * 60 + s) * NANOS_PER_SECOND + ns == totalNanos % NANOS_PER_DAY
  {
    var t := totalNanos;
    var q0, ns := t / NANOS_PER_SECOND, t % NANOS_PER_SECOND;
    var q1, s := q0 / 60, q0 % 60;
    var q2, m := q1 / 60, q1 % 60;
    var q3, h := q2 / 24, q2 % 24;
    DivModUnique(t, NANOS_PER_MINUTE, q1, s * NANOS_PER_SECOND + ns);
    DivModUnique(t, NANOS_PER_HOUR, q2, (m * 60 + s) * NANOS_PER_SECOND + ns);
    assert Minutes(t) == m && Hours(t) == h;
    DivModUnique(t, NANOS_PER_DAY, q3, ((h * 60 + m) * 60 + s) * NANOS_PER_SECOND + ns);
  }

  // ---------------------------------------------------------------------------------------
  // format_duration: the text
  // ---------------------------------------------------------------------------------------

  /** `{:02}`: a number below 100 in two digits, with a leading zero when needed. */
  function TwoDigits(n: nat): (s: string)
    requires n < 100
    ensures |s| == 2 && AllDigits(s)
  {
    [DigitChar(n / 10), DigitChar(n % 10)]
  }

  /** The two digits read back as the number. */
  lemma TwoDigitsValue(n: nat)
    requires n < 100
    ensures DigitsValue(TwoDigits(n)) == n
  {
    var s := TwoDigits(n);
    assert s[..1][..0] == [];
    assert DigitsValue(s[..1]) == n / 10;
    assert DigitsValue(s) == DigitsValue(s[..1]) * 10 + n % 10;
  }

  /** A text written back to front. */
  function Reverse(s: string): (r: string)
    ensures |r| == |s|
    ensures forall k :: 0 <= k < |s| ==> r[k] == s[|s| - 1 - k]
  {
    if s == [] then [] else Reverse(s[1..]) + [s[0]]
  }

  /** The regular-expression replacement `(\d{3})` -> `$1,` on a text of digits: the matches
      are the successive groups of three from the front, each followed by a comma, and a
      shorter tail is left as it is. */
  function CommaAfterTriples(r: string): (out: string)
    ensures |out| == |r| + |r| / 3
  {
    if |r| < 3 then r else r[..3] + [','] + CommaAfterTriples(r[3..])
  }

  /** The nanoseconds text: the digits reversed, a comma put after each group of three, and
      the result reversed back. */
  function NanoText(ns: nat): string {
    Reverse(CommaAfterTriples(Reverse(DecimalString(ns))))
  }

  /** The text without its commas. */
  function RemoveCommas(s: string): (r: string)
    ensures |r| <= |s|
  {
    if s == [] then [] else (if s[0] == ',' then [] else [s[0]]) + RemoveCommas(s[1..])
  }

  /** format_duration: "HH:MM:SS", a space, the grouped nanoseconds and " nanos". */
  function FormatDuration(totalNanos: nat): (text: string)
    ensures |text| >= 9 + 1 + 6
  {
    TwoDigits(Hours(totalNanos)) + ":" + TwoDigits(Minutes(totalNanos)) + ":" +
    TwoDigits(Seconds(totalNanos)) + " " + NanoText(Nanos(totalNanos)) + " nanos"
  }

  /** Inside the grouped text a comma sits exactly four, eight, ... places after the start of
      each run, and the other characters are the input's in order. */
  lemma {:induction false} CommaAfterTriplesShape(r: string)
    requires forall k :: 0 <= k < |r| ==> r[k] != ','
    ensures var out := CommaAfterTriples(r);
      (forall k :: 0 <= k < |out| ==> (out[k] == ',' <==> k % 4 == 3)) && RemoveCommas(out) == r
    decreases |r|
  {
    if |r| >= 3 {
      var rest := CommaAfterTriples(r[3..]);
      CommaAfterTriplesShape(r[3..]);
      var out := CommaAfterTriples(r);
      assert out == r[..3] + [','] + rest;
      forall k | 0 <= k < |out|
        ensures out[k] == ',' <==> k % 4 == 3
      {
        if k >= 4 {
          assert out[k] == rest[k - 4];
        }
      }
      RemoveCommasAppend(r[..3] + [','], rest);
      RemoveCommasAppend(r[..3], [',']);
      NoCommas(r[..3]);
      assert r[..3] + r[3..] == r;
    } else {
      NoCommas(r);
    }
  }

  /** Removing commas from a text that has none leaves it as it is. */
  lemma {:induction false} NoCommas(s: string)
    requires forall k :: 0 <= k < |s| ==> s[k] != ','
    ensures RemoveCommas(s) == s
    decreases |s|
  {
    if s != [] {
      NoCommas(s[1..]);
    }
  }

  /** Removing commas works piece by piece. */
  lemma {:induction false} RemoveCommasAppend(a: string, b: string)
    ensures RemoveCommas(a + b) == RemoveCommas(a) + RemoveCommas(b)
    decreases |a|
  {
    if a == [] {
      assert a + b == b;
    } else {
      var head := if a[0] == ',' then [] else [a[0]];
      assert (a + b)[0] == a[0];
      assert (a + b)[1..] == a[1..] + b;
      assert RemoveCommas(a + b) == head + RemoveCommas(a[1..] + b);
      RemoveCommasAppend(a[1..], b);
      AppendAssoc(head, RemoveCommas(a[1..]), RemoveCommas(b));
    }
  }

  /** Removing commas commutes with writing back to front. */
  lemma {:induction false} RemoveCommasReverse(s: string)
    ensures RemoveCommas(Reverse(s)) == Reverse(RemoveCommas(s))
    decreases |s|
  {
    if s != [] {
      RemoveCommasReverse(s[1..]);
      RemoveCommasAppend(Reverse(s[1..]), [s[0]]);
      var head := if s[0] == ',' then [] else [s[0]];
      assert RemoveCommas([s[0]]) == head;
      ReverseAppend(head, RemoveCommas(s[1..]));
    }
  }

  /** Writing a concatenation back to front. */
  lemma ReverseAppend(a: string, b: string)
    ensures Reverse(a + b) == Reverse(b) + Reverse(a)
  {
  }

  /** Writing back to front twice gives the text back. */
  lemma ReverseReverse(s: string)
    ensures Reverse(Reverse(s)) == s
  {
  }

  /** A text of digits has no comma, nor has it back to front. */
  lemma DigitsReversed(digits: string)
    requires AllDigits(digits)
    ensures forall k :: 0 <= k < |Reverse(digits)| ==> Reverse(digits)[k] != ','
  {
    var rev := Reverse(digits);
    forall k | 0 <= k < |rev|
      ensures rev[k] != ','
    {
      assert rev[k] == digits[|digits| - 1 - k];
    }
  }

  /** Without its commas the nanoseconds text is the decimal digits of the nanoseconds. */
  lemma NanoTextDigits(ns: nat)
    ensures RemoveCommas(NanoText(ns)) == DecimalString(ns)
  {
    var digits := DecimalString(ns);
    var out := CommaAfterTriples(Reverse(digits));
    DigitsReversed(digits);
    CommaAfterTriplesShape(Reverse(digits));
    RemoveCommasReverse(out);
    ReverseReverse(digits);
  }

  /** A comma stands before every group of three digits counted from the right (so also at
      the very front when the number of digits is a multiple of three), and nowhere else. */
  lemma NanoTextCommas(ns: nat)
    ensures |NanoText(ns)| == |DecimalString(ns)| + |DecimalString(ns)| / 3
    ensures GroupedFromRight(NanoText(ns))
  {
    var digits := DecimalString(ns);
    var out := CommaAfterTriples(Reverse(digits));
    DigitsReversed(digits);
    CommaAfterTriplesShape(Reverse(digits));
    CommasFromTheRight(out);
  }

  /** Counted from the right end, every fourth character is a comma and no other is. */
  predicate GroupedFromRight(text: string) {
    forall k :: 0 <= k < |text| ==> (text[k] == ',' <==> (|text| - k) % 4 == 0)
  }

  /** Commas every fourth place from the front become commas every fourth place from the back
      when the text is turned around. */
  lemma CommasFromTheRight(out: string)
    requires forall k :: 0 <= k < |out| ==> (out[k] == ',' <==> k % 4 == 3)
    ensures GroupedFromRight(Reverse(out))
  {
    var text := Reverse(out);
    forall k | 0 <= k < |text|
      ensures text[k] == ',' <==> (|text| - k) % 4 == 0
    {
      assert text[k] == out[|out| - 1 - k];
      ModFourStep(|out| - 1 - k);
    }
  }

  /** One place further, a multiple of four is reached exactly from remainder three. */
  lemma ModFourStep(j: nat)
    ensures (j + 1) % 4 == 0 <==> j % 4 == 3
  {
    if j % 4 == 3 {
      DivModUnique(j + 1, 4, j / 4 + 1, 0);
    } else {
      DivModUnique(j + 1, 4, j / 4, j % 4 + 1);
    }
  }

  /** Where the pieces of the duration text sit. */
  lemma DurationLayout(hh: string, mm: string, ss: string, nano: string)
    requires |hh| == 2 && |mm| == 2 && |ss| == 2
    ensures var text := hh + ":" + mm + ":" + ss + " " + nano + " nanos";
      text[0..2] == hh && text[2] == ':' && text[3..5] == mm && text[5] == ':' &&
      text[6..8] == ss && text[8] == ' ' && text[9..|text| - 6] == nano && text[|text| - 6..] == " nanos"
  {
  }

  /** The duration text reads back as its four fields: the hours, minutes and seconds as two
      digits each between colons, then a space, the nanoseconds with their commas, and
      " nanos". */
  lemma FormatDurationReadsBack(totalNanos: nat)
    ensures var text := FormatDuration(totalNanos);
      AllDigits(text[0..2]) && DigitsValue(text[0..2]) == Hours(totalNanos) && text[2] == ':' &&
      AllDigits(text[3..5]) && DigitsValue(text[3..5]) == Minutes(totalNanos) && text[5] == ':' &&
      AllDigits(text[6..8]) && DigitsValue(text[6..8]) == Seconds(totalNanos) && text[8] == ' ' &&
      text[|text| - 6..] == " nanos" &&
      RemoveCommas(text[9..|text| - 6]) == DecimalString(Nanos(totalNanos))
  {
    var hh, mm, ss := TwoDigits(Hours(totalNanos)), TwoDigits(Minutes(totalNanos)), TwoDigits(Seconds(totalNanos));
    DurationLayout(hh, mm, ss, NanoText(Nanos(totalNanos)));
    TwoDigitsValue(Hours(totalNanos));
    TwoDigitsValue(Minutes(totalNanos));
    TwoDigitsValue(Seconds(totalNanos));
    NanoTextDigits(Nanos(totalNanos));
  }
}
