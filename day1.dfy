/** Day 1: a dial numbered 0 to 99 starts at 50 and is turned by a list of rotations such as
    "L68" or "R48". Part one counts the rotations that leave the dial at 0; part two counts
    every click at which the dial points at 0, during a rotation or at its end. */
module Day1 {
  import opened Common

  datatype Direction = R | L

  /** Only 'R' and 'L' name a direction; anything else is a panic. */
  function DirectionFrom(c: char): (r: Result<Direction>)
    ensures r.Ok? <==> c == 'R' || c == 'L'
    ensures r.Ok? ==> (r.value == R <==> c == 'R')
  {
    if c == 'R' then Ok(R)
    else if c == 'L' then Ok(L)
    else Err("Direction::from expects only 'R' or 'L' character inputs")
  }

  /** Right turns count up, left turns count down. */
  function Sign(d: Direction): (s: int)
    ensures s == 1 || s == -1
    ensures s == -1 <==> d == L
  {
    if d == L then -1 else 1
  }

  datatype Rotation = Rotation(direction: Direction, value: nat)

  /** One input line: a direction letter, then a `u16` in decimal. An empty line, another
      first letter or a value that is not a `u16` is a panic. */
  function ParseRotation(line: string): (r: Result<Rotation>)
    ensures r.Ok? ==> |line| > 0 && DirectionFrom(line[0]) == Ok(r.value.direction)
    ensures r.Ok? ==> ParseUnsigned(line[1..], U16_MAX) == Ok(r.value.value) && r.value.value <= U16_MAX
    ensures (line == [] || DirectionFrom(line[0]).Err?) ==> r.Err?
  {
    if line == [] then Err("called `Option::unwrap()` on a `None` value")
    else
      var direction := DirectionFrom(line[0]);
      if direction.Err? then Err(direction.msg)
      else
        var value := ParseUnsigned(line[1..], U16_MAX);
        if value.Err? then Err(value.msg)
        else Ok(Rotation(direction.value, value.value))
  }

  function RotationText(rot: Rotation): string {
    [if rot.direction == R then 'R' else 'L'] + DecimalString(rot.value)
  }

  /** A rotation written out is read back as itself, exactly when its value fits a `u16`. */
  lemma ParseRotationText(rot: Rotation)
    ensures ParseRotation(RotationText(rot)).Ok? <==> rot.value <= U16_MAX
    ensures rot.value <= U16_MAX ==> ParseRotation(RotationText(rot)) == Ok(rot)
  {
    var t := RotationText(rot);
    assert t[1..] == DecimalString(rot.value);
    ParseDecimalString(rot.value, U16_MAX);
  }

  const Start: int := 50

  // ---------------------------------------------------------------------------------------
  // Part one
  // ---------------------------------------------------------------------------------------

  /** The dial position after a rotation, as star_one computes it: the value is reduced
      mod 100, added with its sign, and brought back into 0..99 by hand. */
  function Turn(pos: int, rot: Rotation): int {
    var value := rot.value % 100;
    var rotationRes := pos + Sign(rot.direction) * value;
    if rotationRes > 99 then rotationRes % 100
    else if rotationRes < 0 then
      var postRotate := 99 - ((rotationRes * -1) % 100) + 1;
      if postRotate != 100 then postRotate else 0
    else rotationRes
  }

  /** From a position on the dial, a turn lands on the floored remainder mod 100 of the
      position plus the signed value. */
  lemma TurnIsFlooredMod(pos: int, rot: Rotation)
    requires 0 <= pos < 100
    ensures Turn(pos, rot) == (pos + Sign(rot.direction) * rot.value) % 100
    ensures 0 <= Turn(pos, rot) < 100
  {
    if rot.direction == R {
      TurnRight(pos, rot.value);
      assert rot == Rotation(R, rot.value);
    } else {
      TurnLeft(pos, rot.value);
      assert rot == Rotation(L, rot.value);
    }
  }

  lemma TurnRight(pos: int, v: nat)
    requires 0 <= pos < 100
    ensures Turn(pos, Rotation(R, v)) == (pos + v) % 100
  {
    var q: int := v / 100;
    var r: int := v % 100;
    DivModUnique(v, 100, q, r);
    if pos + r > 99 {
      DivModUnique(pos + v, 100, q + 1, pos + r - 100);
      DivModUnique(pos + r, 100, 1, pos + r - 100);
    } else {
      DivModUnique(pos + v, 100, q, pos + r);
    }
  }

  lemma TurnLeft(pos: int, v: nat)
    requires 0 <= pos < 100
    ensures Turn(pos, Rotation(L, v)) == (pos - v) % 100
  {
    var q: int := v / 100;
    var r: int := v % 100;
    DivModUnique(v, 100, q, r);
    if pos - r < 0 {
      DivModUnique(pos - v, 100, -q - 1, 100 + pos - r);
      DivModUnique(r - pos, 100, 0, r - pos);
      assert (pos - r) * -1 == r - pos;
    } else {
      DivModUnique(pos - v, 100, -q, pos - r);
    }
  }

  /** Every line parsed, or the first failure. */
  function ParseRotations(lines: seq<string>): Result<seq<Rotation>> {
    ParseEach(lines, ParseRotation)
  }

  /** The positions the dial takes after each rotation, by the floored remainder mod 100. */
  function Positions(pos: int, rs: seq<Rotation>): (ps: seq<int>)
    ensures |ps| == |rs|
    decreases rs
  {
    if rs == [] then []
    else
      var next := (pos + Sign(rs[0].direction) * rs[0].value) % 100;
      [next] + Positions(next, rs[1..])
  }

  lemma {:induction false} PositionsOnDial(pos: int, rs: seq<Rotation>)
    ensures forall k :: 0 <= k < |rs| ==> 0 <= Positions(pos, rs)[k] < 100
    decreases rs
  {
    if rs != [] {
      var next := (pos + Sign(rs[0].direction) * rs[0].value) % 100;
      PositionsOnDial(next, rs[1..]);
      assert forall k :: 1 <= k < |rs| ==> Positions(pos, rs)[k] == Positions(next, rs[1..])[k - 1];
    }
  }

  predicate IsZero(p: int) {
    p == 0
  }

  /** star_one's fold over the lines, with its (count, position) accumulator. */
  function LandingsFold(lines: seq<string>, count: nat, pos: int): Result<nat> {
    if lines == [] then Ok(count)
    else
      var rot := ParseRotation(lines[0]);
      if rot.Err? then Err(rot.msg)
      else
        var next := Turn(pos, rot.value);
        LandingsFold(lines[1..], count + if next == 0 then 1 else 0, next)
  }

  function StarOne(input: string): Result<nat> {
    LandingsFold(Lines(input), 0, Start)
  }

  lemma {:induction false} LandingsFoldCounts(lines: seq<string>, count: nat, pos: int)
    requires 0 <= pos < 100
    ensures LandingsFold(lines, count, pos).Ok? <==> ParseRotations(lines).Ok?
    ensures LandingsFold(lines, count, pos).Ok? ==>
      LandingsFold(lines, count, pos).value == count + Count(Positions(pos, ParseRotations(lines).value), IsZero)
  {
    if lines != [] {
      var rot := ParseRotation(lines[0]);
      if rot.Ok? {
        var next := Turn(pos, rot.value);
        TurnIsFlooredMod(pos, rot.value);
        var landed := if next == 0 then 1 else 0;
        LandingsFoldCounts(lines[1..], count + landed, next);
        var rest := ParseRotations(lines[1..]);
        if rest.Ok? {
          ParseEachCons(lines, ParseRotation, rot.value, rest.value);
          PositionsCons(pos, rot.value, rest.value, next);
          CountCons(next, Positions(next, rest.value), IsZero);
        }
      }
    }
  }

  lemma PositionsCons(pos: int, r: Rotation, rest: seq<Rotation>, next: int)
    requires next == (pos + Sign(r.direction) * r.value) % 100
    ensures Positions(pos, [r] + rest) == [next] + Positions(next, rest)
  {
    var rs := [r] + rest;
    assert rs[0] == r && rs[1..] == rest;
    var step := Sign(rs[0].direction) * rs[0].value;
    assert step == Sign(r.direction) * r.value;
  }

  /** star_one answers with the number of rotations after which the dial is at 0, and
      fails exactly when some line is not a rotation. */
  lemma StarOneCountsZeroLandings(input: string)
    ensures StarOne(input).Ok? <==> ParseRotations(Lines(input)).Ok?
    ensures StarOne(input).Ok? ==>
      StarOne(input).value == Count(Positions(Start, ParseRotations(Lines(input)).value), IsZero)
  {
    LandingsFoldCounts(Lines(input), 0, Start);
  }

  // ---------------------------------------------------------------------------------------
  // Part two
  // ---------------------------------------------------------------------------------------

  /** star_two's step: the number of times the dial passes 0 in a rotation, and where it
      ends. Whole turns pass 0 once each; the remainder passes or reaches 0 once more when
      it starts off 0 and lands on 0, above 99 or below 0. */
  function ClickTurn(pos: int, rot: Rotation): (nat, int) {
    var passedZero := rot.value / 100;
    var value := rot.value % 100;
    var rotationRes := pos + Sign(rot.direction) * value;
    var passed := passedZero + if pos != 0 && rotationRes == 0 then 1 else 0;
    if rotationRes > 99 then
      var postRotate := rotationRes % 100;
      (passed + (if pos != 0 then 1 else 0), if postRotate != 0 then postRotate else 0)
    else if rotationRes < 0 then
      var postRotate := 99 - ((rotationRes * -1) % 100) + 1;
      (passed + (if pos != 0 then 1 else 0), if postRotate != 100 then postRotate else 0)
    else (passed, rotationRes)
  }

  /** The clicks j in 1..k after which a dial turned one click at a time from pos, in the
      direction of `sign`, points at 0. */
  function ZeroClicks(pos: int, sign: int, k: nat): nat {
    if k == 0 then 0 else ZeroClicks(pos, sign, k - 1) + if (pos + sign * k) % 100 == 0 then 1 else 0
  }

  /** Going up from m - 1 to m crosses a multiple of 100 exactly when m is one. */
  lemma DivStep(m: int)
    requires m >= 1
    ensures m / 100 == (m - 1) / 100 + if m % 100 == 0 then 1 else 0
  {
    var q := m / 100;
    var r := m % 100;
    assert m == 100 * q + r;
    if r == 0 {
      assert m - 1 == 100 * (q - 1) + 99;
    } else {
      assert m - 1 == 100 * q + (r - 1);
    }
  }

  /** A number and its negation are multiples of 100 together; a click k to the left of 0
      is at -k. */
  lemma NegMultiple(m: int)
    ensures (-m) % 100 == 0 <==> m % 100 == 0
    ensures 0 + -1 * m == -m
  {
    assert -m == 100 * (-(m / 100)) - m % 100;
  }

  lemma {:induction false} ZeroClicksUp(pos: int, k: nat)
    requires 0 <= pos < 100
    ensures ZeroClicks(pos, 1, k) == (pos + k) / 100
  {
    if k > 0 {
      ZeroClicksUp(pos, k - 1);
      DivStep(pos + k);
    }
  }

  lemma {:induction false} ZeroClicksDown(pos: int, k: nat)
    requires 0 < pos < 100
    ensures ZeroClicks(pos, -1, k) == if k >= pos then (k - pos) / 100 + 1 else 0
  {
    if k > 0 {
      ZeroClicksDown(pos, k - 1);
      var m := k - pos;
      assert pos + -1 * k == -m;
      if k > pos {
        DivStep(m);
        NegMultiple(m);
      } else if k < pos {
        assert 0 < -m < 100;
      }
    }
  }

  lemma {:induction false} ZeroClicksDownFromZero(k: nat)
    ensures ZeroClicks(0, -1, k) == k / 100
  {
    if k > 0 {
      ZeroClicksDownFromZero(k - 1);
      DivStep(k);
      NegMultiple(k);
    }
  }

  /** star_two's step counts exactly the clicks that point the dial at 0, and moves the dial
      as star_one's does. */
  lemma ClickTurnCountsZeroClicks(pos: int, rot: Rotation)
    requires 0 <= pos < 100
    ensures ClickTurn(pos, rot).0 == ZeroClicks(pos, Sign(rot.direction), rot.value)
    ensures ClickTurn(pos, rot).1 == Turn(pos, rot)
  {
    var v := rot.value;
    var q := v / 100;
    var r := v % 100;
    assert v == 100 * q + r;
    if rot.direction == R {
      ZeroClicksUp(pos, v);
      assert pos + v == 100 * q + (pos + r);
      if pos + r > 99 {
        assert (pos + v) / 100 == q + 1;
      } else {
        assert (pos + v) / 100 == q;
      }
    } else if pos == 0 {
      ZeroClicksDownFromZero(v);
    } else {
      ZeroClicksDown(pos, v);
      if pos - r < 0 {
        assert v - pos == 100 * q + (r - pos);
      } else if pos - r > 0 && v >= pos {
        assert v - pos == 100 * (q - 1) + (100 + r - pos);
      }
    }
  }

  /** star_two's fold over the lines. */
  function ClicksFold(lines: seq<string>, count: nat, pos: int): Result<nat> {
    if lines == [] then Ok(count)
    else
      var rot := ParseRotation(lines[0]);
      if rot.Err? then Err(rot.msg)
      else
        var (passed, next) := ClickTurn(pos, rot.value);
        ClicksFold(lines[1..], count + passed, next)
  }

  function StarTwo(input: string): Result<nat> {
    ClicksFold(Lines(input), 0, Start)
  }

  /** The clicks pointing at 0 over a whole list of rotations, starting from pos. */
  function TotalZeroClicks(pos: int, rs: seq<Rotation>): nat
    decreases rs
  {
    if rs == [] then 0
    else
      var next := (pos + Sign(rs[0].direction) * rs[0].value) % 100;
      ZeroClicks(pos, Sign(rs[0].direction), rs[0].value) + TotalZeroClicks(next, rs[1..])
  }

  lemma {:induction false} ClicksFoldCounts(lines: seq<string>, count: nat, pos: int)
    requires 0 <= pos < 100
    ensures ClicksFold(lines, count, pos).Ok? <==> ParseRotations(lines).Ok?
    ensures ClicksFold(lines, count, pos).Ok? ==>
      ClicksFold(lines, count, pos).value == count + TotalZeroClicks(pos, ParseRotations(lines).value)
  {
    if lines != [] {
      var rot := ParseRotation(lines[0]);
      if rot.Ok? {
        var passed, next := ClickStep(pos, rot.value);
        ClicksFoldCons(lines, count, pos, rot.value, passed, next);
        ClicksFoldCounts(lines[1..], count + passed, next);
        var rest := ParseRotations(lines[1..]);
        if rest.Ok? {
          ParseEachCons(lines, ParseRotation, rot.value, rest.value);
          TotalZeroClicksCons(pos, rot.value, rest.value, next);
        }
      }
    }
  }

  /** One rotation of star_two's fold, with what it counts and where it leaves the dial. */
  lemma ClickStep(pos: int, r: Rotation) returns (passed: nat, next: int)
    requires 0 <= pos < 100
    ensures ClickTurn(pos, r) == (passed, next)
    ensures passed == ZeroClicks(pos, Sign(r.direction), r.value)
    ensures next == (pos + Sign(r.direction) * r.value) % 100 && 0 <= next < 100
  {
    ClickTurnCountsZeroClicks(pos, r);
    TurnIsFlooredMod(pos, r);
    passed, next := ClickTurn(pos, r).0, ClickTurn(pos, r).1;
  }

  lemma ClicksFoldCons(lines: seq<string>, count: nat, pos: int, r: Rotation, passed: nat, next: int)
    requires lines != [] && ParseRotation(lines[0]) == Ok(r) && ClickTurn(pos, r) == (passed, next)
    ensures ClicksFold(lines, count, pos) == ClicksFold(lines[1..], count + passed, next)
  {
  }

  lemma TotalZeroClicksCons(pos: int, r: Rotation, rest: seq<Rotation>, next: int)
    requires next == (pos + Sign(r.direction) * r.value) % 100
    ensures TotalZeroClicks(pos, [r] + rest) == ZeroClicks(pos, Sign(r.direction), r.value) + TotalZeroClicks(next, rest)
  {
    assert ([r] + rest)[1..] == rest;
  }

  /** star_two answers with the number of clicks, over all rotations, that leave the dial
      pointing at 0, and fails exactly when some line is not a rotation. */
  lemma StarTwoCountsZeroClicks(input: string)
    ensures StarTwo(input).Ok? <==> ParseRotations(Lines(input)).Ok?
    ensures StarTwo(input).Ok? ==>
      StarTwo(input).value == TotalZeroClicks(Start, ParseRotations(Lines(input)).value)
  {
    ClicksFoldCounts(Lines(input), 0, Start);
  }

  /** When no rotation is by 0, each rotation's end at 0 is also its last click, so part
      two's answer is at least part one's. (A rotation by 0 that starts at 0 counts in part
      one only.) */
  lemma {:induction false} LandingsAreClicks(pos: int, rs: seq<Rotation>)
    requires 0 <= pos < 100
    requires forall k :: 0 <= k < |rs| ==> rs[k].value > 0
    ensures Count(Positions(pos, rs), IsZero) <= TotalZeroClicks(pos, rs)
    decreases rs
  {
    if rs != [] {
      var s := Sign(rs[0].direction);
      var v := rs[0].value;
      var next := (pos + s * v) % 100;
      LandingsAreClicks(next, rs[1..]);
      assert Positions(pos, rs) == [next] + Positions(next, rs[1..]);
      CountAppend([next], Positions(next, rs[1..]), IsZero);
      assert Count([next], IsZero) == if next == 0 then 1 else 0 by {
        assert [next][..0] == [];
      }
      assert forall k :: 0 <= k < |rs| - 1 ==> rs[1..][k] == rs[k + 1];
    }
  }
}
