/** Day 10: each machine has up to sixteen indicator lights, buttons that toggle (or, for the
    second puzzle, bump) a set of lights, and a joltage requirement per light. A machine
    line is decoded into 16-bit masks; part one searches, depth first and at most nine
    presses deep, for the fewest presses that toggle every light into its wanted state, and
    part two for the fewest presses that bring every counter to its requirement. */
module Day10 {
  import opened Common

  const UNWRAP_NONE: string := "called `Option::unwrap()` on a `None` value"
  const SHL_OVERFLOW: string := "attempt to shift left with overflow"
  const INDEX_OUT_OF_BOUNDS: string := "index out of bounds: the len is 16"
  const EMPTY_SLICE: string := "slice index starts at 1 but ends at 0"

  // ---------------------------------------------------------------------------------------
  // u16 masks, as numbers below 2^16, and the bit operations the solver uses on them
  // ---------------------------------------------------------------------------------------

  /** One more than the largest u16. */
  const U16_LIMIT: nat := 0x1_0000

  function Pow2(k: nat): (p: nat)
    ensures p >= 1
  {
    if k == 0 then 1 else 2 * Pow2(k - 1)
  }

  /** `m >> i`, one place at a time. */
  function Shr(m: nat, i: nat): nat {
    if i == 0 then m else Shr(m, i - 1) / 2
  }

  /** Bit i of a mask: light (or counter) i. */
  predicate Bit(m: nat, i: nat) {
    Shr(m, i) % 2 == 1
  }

  /** `a | b`, bit by bit from the lowest. */
  function Or(a: nat, b: nat): nat
    decreases a + b
  {
    if a == 0 && b == 0 then 0
    else 2 * Or(a / 2, b / 2) + (if a % 2 == 1 || b % 2 == 1 then 1 else 0)
  }

  /** `a ^ b`, bit by bit from the lowest. */
  function Xor(a: nat, b: nat): nat
    decreases a + b
  {
    if a == 0 && b == 0 then 0
    else 2 * Xor(a / 2, b / 2) + (if a % 2 != b % 2 then 1 else 0)
  }

  /** `m << 1` on a u16: the top bit falls off. */
  function Shl1(m: nat): (r: nat)
    ensures r < U16_LIMIT && r % 2 == 0
  {
    ShlEven(m);
    (2 * m) % U16_LIMIT
  }

  lemma ShlEven(m: nat)
    ensures (2 * m) % U16_LIMIT == 2 * (m % 0x8000)
  {
    DivModUnique(2 * m, U16_LIMIT, m / 0x8000, 2 * (m % 0x8000));
  }

  /** Shifting by one more place first halves the mask. */
  lemma {:induction false} ShrSucc(x: nat, i: nat)
    ensures Shr(x, i + 1) == Shr(x / 2, i)
  {
    if i > 0 {
      ShrSucc(x, i - 1);
    }
  }

  /** Bit i + 1 of a mask is bit i of its half. */
  lemma BitSucc(x: nat, i: nat)
    ensures Bit(x, i + 1) == Bit(x / 2, i)
  {
    ShrSucc(x, i);
  }

  /** Once a shifted mask is 0, shifting further leaves it 0. */
  lemma {:induction false} ShrZero(x: nat, j: nat, i: nat)
    requires j <= i && Shr(x, j) == 0
    ensures Shr(x, i) == 0
  {
    if j < i {
      ShrZero(x, j, i - 1);
    }
  }

  /** A mask below 2^n shifted by i places is below 2^(n - i). */
  lemma {:induction false} ShrBound(x: nat, n: nat, i: nat)
    requires x < Pow2(n) && i <= n
    ensures Shr(x, i) < Pow2(n - i)
  {
    if i > 0 {
      ShrBound(x, n, i - 1);
    }
  }

  /** Sixteen shifts empty any u16. */
  lemma ShrAll(m: nat)
    requires m < U16_LIMIT
    ensures Shr(m, 16) == 0
  {
    Pow2Sixteen();
    ShrBound(m, 16, 16);
  }

  lemma Pow2Sixteen()
    ensures Pow2(16) == U16_LIMIT
  {
    assert Pow2(1) == 2;
    assert Pow2(2) == 4;
    assert Pow2(3) == 8;
    assert Pow2(4) == 16;
    assert Pow2(5) == 32;
    assert Pow2(6) == 64;
    assert Pow2(7) == 128;
    assert Pow2(8) == 256;
    assert Pow2(9) == 512;
    assert Pow2(10) == 1024;
    assert Pow2(11) == 2048;
    assert Pow2(12) == 4096;
    assert Pow2(13) == 8192;
    assert Pow2(14) == 16384;
    assert Pow2(15) == 32768;
    assert Pow2(16) == 65536;
  }

  /** Once the mask shifted right by j is 0, no bit at or above j is set. */
  lemma ShiftedOut(m: nat, j: nat, i: nat)
    requires j <= i && Shr(m, j) == 0
    ensures !Bit(m, i)
  {
    ShrZero(m, j, i);
  }

  /** No bit of 0 is set. */
  lemma NoBits(i: nat)
    ensures !Bit(0, i)
  {
    ShrZero(0, 0, i);
  }

  /** A u16 has no bit at 16 or above. */
  lemma HighBits(m: nat, i: nat)
    requires m < U16_LIMIT && 16 <= i
    ensures !Bit(m, i)
  {
    ShrAll(m);
    ShiftedOut(m, 16, i);
  }

  /** Two masks with the same bits are equal. */
  lemma {:induction false} BitsEqual(a: nat, b: nat)
    requires forall i :: Bit(a, i) == Bit(b, i)
    ensures a == b
    decreases a + b
  {
    if a != 0 || b != 0 {
      assert Bit(a, 0) == Bit(b, 0);
      forall i
        ensures Bit(a / 2, i) == Bit(b / 2, i)
      {
        BitSucc(a, i);
        BitSucc(b, i);
      }
      BitsEqual(a / 2, b / 2);
    }
  }

  lemma HalfOr(a: nat, b: nat)
    ensures Or(a, b) / 2 == Or(a / 2, b / 2)
    ensures Or(a, b) % 2 == if a % 2 == 1 || b % 2 == 1 then 1 else 0
  {
  }

  /** The bits of `a | b` are those of a and those of b. */
  lemma {:induction false} OrBit(a: nat, b: nat, i: nat)
    ensures Bit(Or(a, b), i) <==> Bit(a, i) || Bit(b, i)
  {
    HalfOr(a, b);
    if i > 0 {
      OrBit(a / 2, b / 2, i - 1);
      BitSucc(Or(a, b), i - 1);
      BitSucc(a, i - 1);
      BitSucc(b, i - 1);
    }
  }

  lemma HalfXor(a: nat, b: nat)
    ensures Xor(a, b) / 2 == Xor(a / 2, b / 2)
    ensures Xor(a, b) % 2 == if a % 2 != b % 2 then 1 else 0
  {
  }

  /** The bits of `a ^ b` are those set in exactly one of a and b. */
  lemma {:induction false} XorBit(a: nat, b: nat, i: nat)
    ensures Bit(Xor(a, b), i) <==> Bit(a, i) != Bit(b, i)
  {
    HalfXor(a, b);
    if i > 0 {
      XorBit(a / 2, b / 2, i - 1);
      BitSucc(Xor(a, b), i - 1);
      BitSucc(a, i - 1);
      BitSucc(b, i - 1);
    }
  }

  /** `a | b` of two u16 values is a u16. */
  lemma {:induction false} OrBound(a: nat, b: nat, n: nat)
    requires a < Pow2(n) && b < Pow2(n)
    ensures Or(a, b) < Pow2(n)
    decreases n
  {
    if n > 0 && (a != 0 || b != 0) {
      OrBound(a / 2, b / 2, n - 1);
    }
  }

  /** `a ^ b` of two u16 values is a u16. */
  lemma {:induction false} XorBound(a: nat, b: nat, n: nat)
    requires a < Pow2(n) && b < Pow2(n)
    ensures Xor(a, b) < Pow2(n)
    decreases n
  {
    if n > 0 && (a != 0 || b != 0) {
      XorBound(a / 2, b / 2, n - 1);
    }
  }

  /** `1 << k` has bit k and no other. */
  lemma {:induction false} Pow2Bit(k: nat, i: nat)
    ensures Bit(Pow2(k), i) <==> i == k
  {
    if i == 0 {
      assert Shr(Pow2(k), 0) == Pow2(k);
    } else {
      BitSucc(Pow2(k), i - 1);
      if k == 0 {
        ShiftedOut(0, 0, i - 1);
      } else {
        Pow2Bit(k - 1, i - 1);
      }
    }
  }

  /** Below bit n, a mask and its remainder modulo 2^n agree. */
  lemma {:induction false} ModBits(m: nat, n: nat, t: nat)
    requires t < n
    ensures Bit(m % Pow2(n), t) == Bit(m, t)
  {
    var p := Pow2(n - 1);
    ModHalf(m, p);
    if t > 0 {
      ModBits(m / 2, n - 1, t - 1);
      BitSucc(m % Pow2(n), t - 1);
      BitSucc(m, t - 1);
    }
  }

  /** Halving commutes with the remainder by an even number. */
  lemma ModHalf(m: nat, p: nat)
    requires p >= 1
    ensures (m % (2 * p)) % 2 == m % 2
    ensures (m % (2 * p)) / 2 == (m / 2) % p
  {
    var q, r := m / (2 * p), m % (2 * p);
    var r1, r0 := r / 2, r % 2;
    assert m == 2 * (p * q + r1) + r0;
    DivModUnique(m, 2, p * q + r1, r0);
    DivModUnique(m / 2, p, q, r1);
  }

  /** Shifting left by one and putting b in bit 0 moves every bit up by one; bit 15 falls
      off. */
  lemma ShiftInBits(m: nat, b: nat, i: nat)
    requires b <= 1 && i < 16
    ensures Bit(Shl1(m) + b, i) <==> if i == 0 then b == 1 else Bit(m, i - 1)
  {
    var x := Shl1(m) + b;
    var r := m % 0x8000;
    ShlEven(m);
    DivModUnique(x, 2, r, b);
    if i > 0 {
      BitSucc(x, i - 1);
      assert Pow2(15) == 0x8000;
      ModBits(m, 15, i - 1);
    }
  }

  /** A non-zero u16 has a set bit. */
  lemma SomeBit(m: nat) returns (i: nat)
    requires 0 < m < U16_LIMIT
    ensures i < 16 && Bit(m, i)
  {
    i := 0;
    ShrAll(m);
    while !Bit(m, i)
      invariant i < 16 && Shr(m, i) != 0
      decreases 16 - i
    {
      i := i + 1;
    }
  }

  // ---------------------------------------------------------------------------------------
  // Machine::from, after the regular expression has cut the line into its three parts
  // ---------------------------------------------------------------------------------------

  /** The indicator text folded from its last character to its first: shift the mask left,
      then add 1 for a '#'. */
  function IndicatorMask(lights: string): (mask: nat)
    ensures mask < U16_LIMIT
  {
    if lights == [] then 0
    else
      var acc := Shl1(IndicatorMask(lights[1..]));
      if lights[0] == '#' then acc + 1 else acc
  }

  /** Bit i of the desired state is set exactly when the i-th light is shown as '#'; lights
      past the sixteenth are shifted out. */
  lemma {:induction false} IndicatorMaskBit(lights: string, i: nat)
    requires i < 16
    ensures Bit(IndicatorMask(lights), i) <==> i < |lights| && lights[i] == '#'
  {
    if lights == [] {
      NoBits(i);
    } else {
      IndicatorMaskHead(lights, i);
      if i > 0 {
        IndicatorMaskBit(lights[1..], i - 1);
        if i < |lights| {
          assert lights[1..][i - 1] == lights[i];
        }
      }
    }
  }

  /** One step of the fold: the first light lands in bit 0, the others one bit higher. */
  lemma IndicatorMaskHead(lights: string, i: nat)
    requires lights != [] && i < 16
    ensures Bit(IndicatorMask(lights), i) <==> if i == 0 then lights[0] == '#' else Bit(IndicatorMask(lights[1..]), i - 1)
  {
    var b: nat := if lights[0] == '#' then 1 else 0;
    IndicatorMaskUnfold(lights, b);
    ShiftInBits(IndicatorMask(lights[1..]), b, i);
  }

  lemma IndicatorMaskUnfold(lights: string, b: nat)
    requires lights != [] && b == if lights[0] == '#' then 1 else 0
    ensures IndicatorMask(lights) == Shl1(IndicatorMask(lights[1..])) + b
  {
  }

  /** A listed light index: a u16 number small enough to shift 1 by. */
  predicate IsLightIndex(t: string) {
    var k := ParseUnsigned(t, U16_MAX); k.Ok? && k.value < 16
  }

  /** The text lists light i. */
  predicate LightIndex(t: string, i: nat) {
    ParseUnsigned(t, U16_MAX) == Ok(i) && i < 16
  }

  /** The fold `acc | (1 << index)` over a button's listed light indices; a number that is
      not a u16, or is 16 or more (a shift that overflows), stops it. */
  function ButtonMaskOf(indices: seq<string>): Result<nat> {
    if indices == [] then Ok(0)
    else
      var acc := ButtonMaskOf(indices[..|indices| - 1]);
      if acc.Err? then acc
      else
        var k := ParseUnsigned(indices[|indices| - 1], U16_MAX);
        if k.Err? then Err(k.msg)
        else if k.value >= 16 then Err(SHL_OVERFLOW)
        else Ok(Or(acc.value, Pow2(k.value)))
  }

  /** A button mask is decoded exactly when every listed index is a light index. */
  lemma {:induction false} ButtonMaskOk(indices: seq<string>)
    ensures ButtonMaskOf(indices).Ok? <==> forall k :: 0 <= k < |indices| ==> IsLightIndex(indices[k])
  {
    if indices != [] {
      var n := |indices| - 1;
      var init := indices[..n];
      assert ButtonMaskOf(indices).Ok? <==> ButtonMaskOf(init).Ok? && IsLightIndex(indices[n]);
      ButtonMaskOk(init);
      assert forall k :: 0 <= k < n ==> init[k] == indices[k];
    }
  }

  /** Some text of the list names light i. */
  predicate Listed(indices: seq<string>, i: nat) {
    exists k :: 0 <= k < |indices| && LightIndex(indices[k], i)
  }

  /** A decoded button mask has exactly the listed lights as its bits. */
  lemma {:induction false} ButtonMaskBit(indices: seq<string>, i: nat)
    requires i < 16 && ButtonMaskOf(indices).Ok?
    ensures Bit(ButtonMaskOf(indices).value, i) <==> Listed(indices, i)
  {
    if indices == [] {
      NoBits(i);
    } else {
      var n := |indices| - 1;
      ButtonMaskBit(indices[..n], i);
      ButtonMaskStep(indices, i);
      ListedSnoc(indices, i);
    }
  }

  /** The last index adds its own bit to the mask of the others. */
  lemma ButtonMaskStep(indices: seq<string>, i: nat)
    requires i < 16 && indices != [] && ButtonMaskOf(indices).Ok?
    ensures var n := |indices| - 1;
      ButtonMaskOf(indices[..n]).Ok? &&
      (Bit(ButtonMaskOf(indices).value, i) <==> Bit(ButtonMaskOf(indices[..n]).value, i) || LightIndex(indices[n], i))
  {
    var n := |indices| - 1;
    var k := ParseUnsigned(indices[n], U16_MAX).value;
    var acc := ButtonMaskOf(indices[..n]).value;
    var mask := ButtonMaskOf(indices).value;
    assert LightIndex(indices[n], i) <==> i == k;
    OrBit(acc, Pow2(k), i);
    Pow2Bit(k, i);
  }

  lemma ListedSnoc(indices: seq<string>, i: nat)
    requires indices != []
    ensures var n := |indices| - 1;
      Listed(indices, i) <==> Listed(indices[..n], i) || LightIndex(indices[n], i)
  {
    var n := |indices| - 1;
    if Listed(indices, i) {
      var j :| 0 <= j < |indices| && LightIndex(indices[j], i);
      if j < n {
        assert indices[..n][j] == indices[j];
      }
    }
    if Listed(indices[..n], i) {
      var j :| 0 <= j < n && LightIndex(indices[..n][j], i);
      assert indices[j] == indices[..n][j];
    }
  }

  /** `1 << k` grows with k. */
  lemma {:induction false} Pow2Below(k: nat, n: nat)
    requires k < n
    ensures Pow2(k) < Pow2(n)
    decreases n
  {
    if k < n - 1 {
      Pow2Below(k, n - 1);
    }
  }

  /** A decoded button mask is a u16, and a button listing some light has a bit set. */
  lemma {:induction false} ButtonMaskBound(indices: seq<string>)
    requires ButtonMaskOf(indices).Ok?
    ensures ButtonMaskOf(indices).value < U16_LIMIT
    ensures indices != [] ==> ButtonMaskOf(indices).value != 0
  {
    if indices != [] {
      var n := |indices| - 1;
      var k := ParseUnsigned(indices[n], U16_MAX).value;
      ButtonMaskBound(indices[..n]);
      Pow2Sixteen();
      Pow2Below(k, 16);
      OrBound(ButtonMaskOf(indices[..n]).value, Pow2(k), 16);
      ButtonMaskBit(indices, k);
      assert LightIndex(indices[n], k);
      NoBits(k);
    }
  }

  /** One button, written "(i,j,...)": the text between the brackets, split at commas. */
  function ButtonMask(button: string): Result<nat> {
    if |button| < 2 then Err(EMPTY_SLICE)
    else ButtonMaskOf(Split(button[1..|button| - 1], ','))
  }

  /** The non-empty pieces, in order. */
  function NonEmpty(pieces: seq<string>): (r: seq<string>)
    ensures forall k :: 0 <= k < |r| ==> r[k] != []
  {
    if pieces == [] then []
    else if pieces[0] == [] then NonEmpty(pieces[1..])
    else [pieces[0]] + NonEmpty(pieces[1..])
  }

  /** The button list: the space-separated pieces that are not empty, each a button. */
  function ButtonMasks(buttons: string): Result<seq<nat>> {
    ParseEach(NonEmpty(Split(buttons, ' ')), ButtonMask)
  }

  /** Every decoded button is a non-zero u16. */
  lemma ButtonMasksBound(buttons: string)
    requires ButtonMasks(buttons).Ok?
    ensures forall k :: 0 <= k < |ButtonMasks(buttons).value| ==>
      0 < ButtonMasks(buttons).value[k] < U16_LIMIT
  {
    var texts := NonEmpty(Split(buttons, ' '));
    var masks := ButtonMasks(buttons).value;
    ParseEachSpec(texts, ButtonMask);
    forall k | 0 <= k < |masks|
      ensures 0 < masks[k] < U16_LIMIT
    {
      ButtonMaskBound(Split(texts[k][1..|texts[k]| - 1], ','));
    }
  }

  function ParseU8(t: string): Result<nat> {
    ParseUnsigned(t, U8_MAX)
  }

  /** The parsed requirements followed by zeros, sixteen counters in all. */
  function Padded(values: seq<nat>): (counters: seq<nat>)
    requires |values| <= 16
    ensures |counters| == 16
  {
    values + seq(16 - |values|, _ => 0)
  }

  /** The joltage loop of Machine::from: the i-th listed u8 goes to counter i and onto the
      total. A value that is not a u8, or a seventeenth value, stops it. */
  method JoltageFrom(requirement: string) returns (r: Result<(seq<nat>, nat)>)
    ensures var values := ParseEach(Split(requirement, ','), ParseU8);
      r.Ok? <==> values.Ok? && |values.value| <= 16
    ensures r.Ok? ==> var values := ParseEach(Split(requirement, ','), ParseU8).value;
      |values| <= 16 && r.value.0 == Padded(values) && r.value.1 == Sum(values)
  {
    var pieces := Split(requirement, ',');
    ghost var values: seq<nat> := [];
    var maxJoltageDepth: nat := 0;
    var joltageRequirement: seq<nat> := seq(16, _ => 0);
    for idx := 0 to |pieces|
      invariant |values| == idx <= 16
      invariant ParseEach(pieces[..idx], ParseU8) == Ok(values)
      invariant joltageRequirement == Padded(values)
      invariant maxJoltageDepth == Sum(values)
    {
      var joltage := ParseU8(pieces[idx]);
      if joltage.Err? {
        ParseEachErrAt(pieces, ParseU8, idx);
        return Err(joltage.msg);
      }
      ParseEachSnoc(pieces, ParseU8, idx, values, joltage.value);
      if idx >= 16 {
        ParseEachLengthAtLeast(pieces, idx + 1);
        return Err(INDEX_OUT_OF_BOUNDS);
      }
      RequirementStep(values, joltage.value);
      joltageRequirement := joltageRequirement[idx := joltage.value];
      maxJoltageDepth := maxJoltageDepth + joltage.value;
      values := values + [joltage.value];
    }
    assert pieces[..|pieces|] == pieces;
    ParseEachLength(pieces, ParseU8);
    return Ok((joltageRequirement, maxJoltageDepth));
  }

  /** Storing the next value at its index and adding it to the total. */
  lemma RequirementStep(values: seq<nat>, v: nat)
    requires |values| < 16
    ensures Padded(values)[|values| := v] == Padded(values + [v])
    ensures Sum(values + [v]) == Sum(values) + v
  {
    assert (values + [v])[..|values|] == values;
  }

  /** Sixteen or fewer u8 requirements add up to far less than usize::MAX. */
  lemma RequirementTotalBound(pieces: seq<string>)
    requires ParseEach(pieces, ParseU8).Ok? && |ParseEach(pieces, ParseU8).value| <= 16
    ensures Sum(ParseEach(pieces, ParseU8).value) <= 16 * U8_MAX
  {
    var values := ParseEach(pieces, ParseU8).value;
    ParseEachSpec(pieces, ParseU8);
    ByteSumBound(values);
  }

  /** A sum of bytes is at most 255 per byte. */
  lemma {:induction false} ByteSumBound(values: seq<nat>)
    requires forall k :: 0 <= k < |values| ==> values[k] <= U8_MAX
    ensures Sum(values) <= U8_MAX * |values|
  {
    if values != [] {
      ByteSumBound(values[..|values| - 1]);
    }
  }

  /** A parsed list is as long as the text list. */
  lemma ParseEachLengthAtLeast(pieces: seq<string>, m: nat)
    requires m <= |pieces| && ParseEach(pieces[..m], ParseU8).Ok?
    ensures ParseEach(pieces, ParseU8).Ok? ==> |ParseEach(pieces, ParseU8).value| >= m
  {
    if ParseEach(pieces, ParseU8).Ok? {
      ParseEachLength(pieces, ParseU8);
    }
  }

  /** A machine as Machine::from builds it (the `state` field, always 0 and never read, is
      dropped). */
  datatype Machine = Machine(desiredState: nat, buttons: seq<nat>, joltageRequirement: seq<nat>,
                             maxJoltageDepth: nat)

  /** What the searches rely on: u16 masks, non-zero buttons, sixteen counters and a usize
      depth total. */
  predicate WellFormed(m: Machine) {
    m.desiredState < U16_LIMIT && |m.joltageRequirement| == 16 && m.maxJoltageDepth <= USIZE_MAX &&
    forall k :: 0 <= k < |m.buttons| ==> 0 < m.buttons[k] < U16_LIMIT
  }

  /** Machine::from on the three parts the regular expression captures: the lights, the
      buttons and the joltage requirements. The lights cannot fail; a bad button panics
      before a bad requirement is looked at. */
  method MachineFrom(lights: string, buttons: string, requirement: string) returns (r: Result<Machine>)
    ensures var values := ParseEach(Split(requirement, ','), ParseU8);
      r.Ok? <==> ButtonMasks(buttons).Ok? && values.Ok? && |values.value| <= 16
    ensures ButtonMasks(buttons).Err? ==> r == Err(ButtonMasks(buttons).msg)
    ensures r.Ok? ==> var values := ParseEach(Split(requirement, ','), ParseU8).value;
      r.value.desiredState == IndicatorMask(lights) && r.value.buttons == ButtonMasks(buttons).value &&
      r.value.joltageRequirement == Padded(values) && r.value.maxJoltageDepth == Sum(values)
    ensures r.Ok? ==> WellFormed(r.value)
  {
    var desiredState := IndicatorMask(lights);
    var masks := ButtonMasks(buttons);
    if masks.Err? {
      return Err(masks.msg);
    }
    ButtonMasksBound(buttons);
    var joltage := JoltageFrom(requirement);
    if joltage.Err? {
      return Err(joltage.msg);
    }
    RequirementTotalBound(Split(requirement, ','));
    r := Ok(Machine(desiredState, masks.value, joltage.value.0, joltage.value.1));
  }

  // ---------------------------------------------------------------------------------------
  // Part one: get_min_indicator_presses_recurse
  // ---------------------------------------------------------------------------------------

  /** The previous choice of the first call, u16::MAX. */
  const NO_PRESS: nat := 0xFFFF

  /** The deepest the indicator search goes: a call at depth 10 gives up. */
  const INDICATOR_DEPTH: nat := 10

  /** Pressing a button toggles the lights it is wired to: `state ^ button`. */
  function Toggle(state: nat, button: nat): nat {
    Xor(state, button)
  }

  /** A run of presses the indicator search can follow from `state`: it stops as soon as every
      light is off; otherwise it presses a button of the machine other than the one just
      pressed, into a state not yet on the path (`memo`), and goes on from there. */
  predicate IndicatorPath(buttons: seq<nat>, state: nat, prev: nat, memo: set<nat>, ps: seq<nat>)
    decreases |ps|
  {
    if state == 0 then ps == []
    else
      ps != [] && ps[0] in buttons && ps[0] != prev && Toggle(state, ps[0]) !in memo &&
      IndicatorPath(buttons, Toggle(state, ps[0]), ps[0], memo + {Toggle(state, ps[0])}, ps[1..])
  }

  /** The XOR of every mask in the list. */
  function XorAll(ps: seq<nat>): nat {
    if ps == [] then 0 else Toggle(ps[0], XorAll(ps[1..]))
  }

  /** The states a run of presses passes through, after each press. */
  function Visited(state: nat, ps: seq<nat>): (vs: seq<nat>)
    ensures |vs| == |ps|
    decreases |ps|
  {
    if ps == [] then [] else [Toggle(state, ps[0])] + Visited(Toggle(state, ps[0]), ps[1..])
  }

  lemma XorPeel(state: nat, p: nat, rest: nat)
    requires Toggle(state, p) == rest
    ensures state == Toggle(p, rest)
  {
    forall i
      ensures Bit(state, i) == Bit(Toggle(p, rest), i)
    {
      XorBit(state, p, i);
      XorBit(p, rest, i);
    }
    BitsEqual(state, Toggle(p, rest));
  }

  /** What a search path means: its presses XOR to the starting state (so they switch the
      wanted lights on from all-off), every press is a button of the machine, no button is
      pressed twice in a row (nor first the one passed in as previous), and the states it
      passes through are pairwise different and never in the memo. */
  lemma {:induction false} IndicatorPathMeaning(buttons: seq<nat>, state: nat, prev: nat, memo: set<nat>, ps: seq<nat>)
    requires IndicatorPath(buttons, state, prev, memo, ps)
    ensures XorAll(ps) == state
    ensures forall k :: 0 <= k < |ps| ==> ps[k] in buttons
    ensures ps != [] ==> ps[0] != prev
    ensures forall k :: 0 < k < |ps| ==> ps[k] != ps[k - 1]
    ensures var vs := Visited(state, ps);
      (forall k :: 0 <= k < |vs| ==> vs[k] !in memo) &&
      (forall j, k :: 0 <= j < k < |vs| ==> vs[j] != vs[k])
    decreases |ps|
  {
    if state != 0 {
      var next := Toggle(state, ps[0]);
      var rest := ps[1..];
      IndicatorPathMeaning(buttons, next, ps[0], memo + {next}, rest);
      XorPeel(state, ps[0], XorAll(rest));
      assert forall k :: 0 < k < |ps| ==> ps[k] == rest[k - 1];
      var vs := Visited(state, ps);
      assert vs == [next] + Visited(next, rest);
      assert forall k :: 0 < k < |vs| ==> vs[k] == Visited(next, rest)[k - 1];
      assert vs[0] == next && next !in memo;
      assert forall k :: 0 < k < |vs| ==> vs[k] !in memo + {next};
      forall j, k | 0 <= j < k < |vs|
        ensures vs[j] != vs[k]
      {
        var ws := Visited(next, rest);
        assert vs[k] == ws[k - 1];
        if j > 0 {
          assert vs[j] == ws[j - 1];
        } else {
          assert vs[k] !in memo + {next};
        }
      }
    }
  }

  /** The search reached all-off `v` presses into the machine from this call, v below 10. */
  ghost predicate Reaches(buttons: seq<nat>, state: nat, prev: nat, memo: set<nat>, depth: nat, v: nat) {
    depth <= v < INDICATOR_DEPTH &&
    exists ps :: IndicatorPath(buttons, state, prev, memo, ps) && depth + |ps| == v
  }

  /** A total of v presses is still worth finding: below the depth bound and the best so far. */
  predicate Improves(v: nat, min: Option<nat>, bound: nat) {
    v < bound && (min.None? || v < min.value)
  }

  /** Every path that starts with one of `first` and would improve on `min` is matched by
      `best`. */
  ghost predicate Covers(buttons: seq<nat>, state: nat, prev: nat, memo: set<nat>, depth: nat,
                         min: Option<nat>, first: seq<nat>, best: Option<nat>) {
    forall ps {:trigger IndicatorPath(buttons, state, prev, memo, ps)} ::
      (IndicatorPath(buttons, state, prev, memo, ps) && ps != [] && ps[0] in first &&
       Improves(depth + |ps|, min, INDICATOR_DEPTH)) ==> best.Some? && best.value <= depth + |ps|
  }

  /** One press followed by a path is a path. */
  lemma ReachesCons(buttons: seq<nat>, state: nat, prev: nat, memo: set<nat>, depth: nat, button: nat, v: nat)
    requires state != 0 && button in buttons && button != prev && Toggle(state, button) !in memo
    requires Reaches(buttons, Toggle(state, button), button, memo + {Toggle(state, button)}, depth + 1, v)
    ensures Reaches(buttons, state, prev, memo, depth, v)
  {
    var next := Toggle(state, button);
    var qs :| IndicatorPath(buttons, next, button, memo + {next}, qs) && depth + 1 + |qs| == v;
    var ps := [button] + qs;
    assert ps[1..] == qs;
    assert IndicatorPath(buttons, state, prev, memo, ps);
  }

  /** A button the search skips starts no path. */
  lemma CoversSkip(buttons: seq<nat>, state: nat, prev: nat, memo: set<nat>, depth: nat,
                   min: Option<nat>, bidx: nat, best: Option<nat>)
    requires bidx < |buttons| && (buttons[bidx] == prev || Toggle(state, buttons[bidx]) in memo)
    requires Covers(buttons, state, prev, memo, depth, min, buttons[..bidx], best)
    ensures Covers(buttons, state, prev, memo, depth, min, buttons[..bidx + 1], best)
  {
    forall ps | IndicatorPath(buttons, state, prev, memo, ps) && ps != [] && ps[0] in buttons[..bidx + 1] &&
                Improves(depth + |ps|, min, INDICATOR_DEPTH)
      ensures best.Some? && best.value <= depth + |ps|
    {
      PathHead(buttons, state, prev, memo, ps);
      SliceSnocIn(buttons, bidx, ps[0]);
      assert ps[0] in buttons[..bidx];
    }
  }

  /** The first press of a path from a lit state. */
  lemma PathHead(buttons: seq<nat>, state: nat, prev: nat, memo: set<nat>, ps: seq<nat>)
    requires IndicatorPath(buttons, state, prev, memo, ps) && ps != []
    ensures state != 0 && ps[0] in buttons && ps[0] != prev && Toggle(state, ps[0]) !in memo
    ensures IndicatorPath(buttons, Toggle(state, ps[0]), ps[0], memo + {Toggle(state, ps[0])}, ps[1..])
  {
  }

  /** A button the search presses: the nested call matched every path it could improve on. */
  lemma CoversPress(buttons: seq<nat>, state: nat, prev: nat, memo: set<nat>, depth: nat,
                    min: Option<nat>, bidx: nat, best: Option<nat>, res: nat, best': Option<nat>)
    requires bidx < |buttons| && buttons[bidx] != prev && Toggle(state, buttons[bidx]) !in memo
    requires Covers(buttons, state, prev, memo, depth, min, buttons[..bidx], best)
    requires best'.Some? && best'.value <= res && (best.Some? ==> best'.value <= best.value)
    requires var button := buttons[bidx]; var next := Toggle(state, button);
      forall qs {:trigger IndicatorPath(buttons, next, button, memo + {next}, qs)} ::
        (IndicatorPath(buttons, next, button, memo + {next}, qs) &&
         Improves(depth + 1 + |qs|, best, INDICATOR_DEPTH)) ==> res <= depth + 1 + |qs|
    ensures Covers(buttons, state, prev, memo, depth, min, buttons[..bidx + 1], best')
  {
    var button := buttons[bidx];
    var next := Toggle(state, button);
    forall ps | IndicatorPath(buttons, state, prev, memo, ps) && ps != [] && ps[0] in buttons[..bidx + 1] &&
                Improves(depth + |ps|, min, INDICATOR_DEPTH)
      ensures best'.Some? && best'.value <= depth + |ps|
    {
      SliceSnocIn(buttons, bidx, ps[0]);
      if ps[0] == button {
        PathHead(buttons, state, prev, memo, ps);
        var qs := ps[1..];
        if Improves(depth + 1 + |qs|, best, INDICATOR_DEPTH) {
          assert res <= depth + 1 + |qs|;
        }
      } else {
        assert ps[0] in buttons[..bidx];
      }
    }
  }

  /** An element of a one-longer prefix is in the prefix or is the new element. */
  lemma SliceSnocIn(buttons: seq<nat>, bidx: nat, b: nat)
    requires bidx < |buttons|
    ensures b in buttons[..bidx + 1] <==> b in buttons[..bidx] || b == buttons[bidx]
  {
    assert buttons[..bidx + 1] == buttons[..bidx] + [buttons[bidx]];
  }

  /** A button the search may press from `state`: not the one pressed last, and not leading
      back to a state on the path. */
  predicate Pressable(buttons: seq<nat>, state: nat, prev: nat, memo: set<nat>, k: nat)
    requires k < |buttons|
  {
    buttons[k] != prev && Toggle(state, buttons[k]) !in memo
  }

  /** The first button the search may press, if any. */
  function FirstPress(buttons: seq<nat>, state: nat, prev: nat, memo: set<nat>, from: nat): (f: Option<nat>)
    requires from <= |buttons|
    ensures f.Some? ==> from <= f.value < |buttons| && Pressable(buttons, state, prev, memo, f.value)
    ensures forall k :: from <= k < |buttons| && (f.None? || k < f.value) ==> !Pressable(buttons, state, prev, memo, k)
    decreases |buttons| - from
  {
    if from == |buttons| then None
    else if Pressable(buttons, state, prev, memo, from) then Some(from)
    else FirstPress(buttons, state, prev, memo, from + 1)
  }

  /** When the search fails: a lit state above the depth bound where no button may be
      pressed, or whose first pressable button leads to such a failure. Only the first
      pressable button matters, because the later ones are searched with a best total
      already found. */
  predicate Stalls(buttons: seq<nat>, state: nat, prev: nat, memo: set<nat>, depth: nat)
    decreases INDICATOR_DEPTH - depth
  {
    depth < INDICATOR_DEPTH && state != 0 &&
    var f := FirstPress(buttons, state, prev, memo, 0);
    f.None? ||
      var b := buttons[f.value];
      var next := Toggle(state, b);
      Stalls(buttons, next, b, memo + {next}, depth + 1)
  }

  /** The recursive search of part one. From `state` (the lights still to switch), with the
      best total found so far `min`, the button pressed last `prev`, the presses so far `depth`
      and the states on the path `memo`, it answers usize::MAX when the depth bound or the best
      total is reached, `depth` when every light is off, and otherwise the best answer over
      the buttons it may press next. When no button may be pressed and nothing was found
      before, `min.unwrap()` panics, modelled as an error. */
  method IndicatorSearch(buttons: seq<nat>, state: nat, min: Option<nat>, prev: nat, depth: nat, memo: set<nat>)
    returns (r: Result<nat>)
    requires depth <= INDICATOR_DEPTH
    requires min.Some? ==> min.value <= USIZE_MAX
    ensures r.Err? <==> min.None? && Stalls(buttons, state, prev, memo, depth)
    ensures r.Ok? ==> r.value <= USIZE_MAX
    ensures r.Ok? && min.Some? ==> r.value == USIZE_MAX || r.value <= min.value
    ensures r.Ok? ==> r.value == USIZE_MAX || (min.Some? && r.value == min.value) ||
                      Reaches(buttons, state, prev, memo, depth, r.value)
    ensures r.Ok? ==> forall ps {:trigger IndicatorPath(buttons, state, prev, memo, ps)} ::
      IndicatorPath(buttons, state, prev, memo, ps) && Improves(depth + |ps|, min, INDICATOR_DEPTH) ==>
        r.value <= depth + |ps|
    decreases INDICATOR_DEPTH - depth, 1
  {
    if depth == INDICATOR_DEPTH {
      return Ok(USIZE_MAX);
    }
    if min.Some? && min.value <= depth {
      return Ok(USIZE_MAX);
    }
    if state == 0 {
      assert Reaches(buttons, state, prev, memo, depth, depth) by {
        assert IndicatorPath(buttons, state, prev, memo, []);
      }
      return Ok(depth);
    }
    r := SearchButtons(buttons, state, min, prev, depth, memo);
  }

  /** The loop of the search: every button in turn that is not the one pressed last and
      does not lead back to a state on the path is pressed and searched from, with the best
      total so far as the bound; the answer is the best total found (`min.unwrap()`). */
  method SearchButtons(buttons: seq<nat>, state: nat, min: Option<nat>, prev: nat, depth: nat, memo: set<nat>)
    returns (r: Result<nat>)
    requires depth < INDICATOR_DEPTH && state != 0
    requires min.Some? ==> min.value <= USIZE_MAX
    ensures r.Err? <==> min.None? && Stalls(buttons, state, prev, memo, depth)
    ensures r.Ok? ==> r.value <= USIZE_MAX
    ensures r.Ok? && min.Some? ==> r.value == USIZE_MAX || r.value <= min.value
    ensures r.Ok? ==> r.value == USIZE_MAX || (min.Some? && r.value == min.value) ||
                      Reaches(buttons, state, prev, memo, depth, r.value)
    ensures r.Ok? ==> forall ps {:trigger IndicatorPath(buttons, state, prev, memo, ps)} ::
      IndicatorPath(buttons, state, prev, memo, ps) && Improves(depth + |ps|, min, INDICATOR_DEPTH) ==>
        r.value <= depth + |ps|
    decreases INDICATOR_DEPTH - depth, 0
  {
    var best := min;
    for bidx := 0 to |buttons|
      invariant SearchLoop(buttons, state, prev, memo, depth, min, bidx, best)
    {
      var button := buttons[bidx];
      if button == prev {
        SearchSkip(buttons, state, prev, memo, depth, min, bidx, best);
        continue;
      }
      var nextState := Toggle(state, button);
      if nextState in memo {
        SearchSkip(buttons, state, prev, memo, depth, min, bidx, best);
        continue;
      }
      var res := IndicatorSearch(buttons, nextState, best, button, depth + 1, memo + {nextState});
      if res.Err? {
        SearchFails(buttons, state, prev, memo, depth, min, bidx, best);
        return res;
      }
      var best' := best;
      if best.Some? {
        if res.value < best.value {
          best' := Some(res.value);
        }
      } else {
        best' := Some(res.value);
      }
      SearchPress(buttons, state, prev, memo, depth, min, bidx, best, res.value, best');
      best := best';
    }
    SearchEnd(buttons, state, prev, memo, depth, min, best);
    if best.None? {
      return Err(UNWRAP_NONE);
    }
    return Ok(best.value);
  }

  /** The loop of the search over the buttons, after the first bidx of them, with best the
      best total found so far. */
  ghost predicate SearchLoop(buttons: seq<nat>, state: nat, prev: nat, memo: set<nat>, depth: nat,
                             min: Option<nat>, bidx: nat, best: Option<nat>)
  {
    && bidx <= |buttons|
    && (best.Some? ==> best.value <= USIZE_MAX)
    && (min.Some? ==> best.Some? && best.value <= min.value)
    && (best.Some? ==> best.value == USIZE_MAX || best == min || Reaches(buttons, state, prev, memo, depth, best.value))
    && Covers(buttons, state, prev, memo, depth, min, buttons[..bidx], best)
    && (best.None? <==> min.None? && forall k :: 0 <= k < bidx ==> !Pressable(buttons, state, prev, memo, k))
    && (min.None? && best.Some? ==> !Stalls(buttons, state, prev, memo, depth))
  }

  /** A button the search may not press leaves the loop's state as it was. */
  lemma SearchSkip(buttons: seq<nat>, state: nat, prev: nat, memo: set<nat>, depth: nat,
                   min: Option<nat>, bidx: nat, best: Option<nat>)
    requires bidx < |buttons| && SearchLoop(buttons, state, prev, memo, depth, min, bidx, best)
    requires !Pressable(buttons, state, prev, memo, bidx)
    ensures SearchLoop(buttons, state, prev, memo, depth, min, bidx + 1, best)
  {
    CoversSkip(buttons, state, prev, memo, depth, min, bidx, best);
  }

  /** With nothing found yet, a failure below the first pressable button is a failure of the
      search. */
  lemma SearchFails(buttons: seq<nat>, state: nat, prev: nat, memo: set<nat>, depth: nat,
                    min: Option<nat>, bidx: nat, best: Option<nat>)
    requires depth < INDICATOR_DEPTH && state != 0
    requires bidx < |buttons| && SearchLoop(buttons, state, prev, memo, depth, min, bidx, best)
    requires Pressable(buttons, state, prev, memo, bidx)
    requires var next := Toggle(state, buttons[bidx]);
      best.None? && Stalls(buttons, next, buttons[bidx], memo + {next}, depth + 1)
    ensures min.None? && Stalls(buttons, state, prev, memo, depth)
  {
    assert FirstPress(buttons, state, prev, memo, 0) == Some(bidx);
  }

  /** Pressing button bidx, whose search answered v, and keeping the smaller of v and the
      best so far keeps the loop's state. */
  lemma SearchPress(buttons: seq<nat>, state: nat, prev: nat, memo: set<nat>, depth: nat,
                    min: Option<nat>, bidx: nat, best: Option<nat>, v: nat, best': Option<nat>)
    requires depth < INDICATOR_DEPTH && state != 0
    requires bidx < |buttons| && SearchLoop(buttons, state, prev, memo, depth, min, bidx, best)
    requires Pressable(buttons, state, prev, memo, bidx)
    requires var button := buttons[bidx]; var next := Toggle(state, button);
      && !(best.None? && Stalls(buttons, next, button, memo + {next}, depth + 1))
      && v <= USIZE_MAX
      && (best.Some? ==> v == USIZE_MAX || v <= best.value)
      && (v == USIZE_MAX || (best.Some? && v == best.value) ||
          Reaches(buttons, next, button, memo + {next}, depth + 1, v))
      && forall ps {:trigger IndicatorPath(buttons, next, button, memo + {next}, ps)} ::
           (IndicatorPath(buttons, next, button, memo + {next}, ps) &&
            Improves(depth + 1 + |ps|, best, INDICATOR_DEPTH)) ==> v <= depth + 1 + |ps|
    requires best' == if best.Some? && v >= best.value then best else Some(v)
    ensures SearchLoop(buttons, state, prev, memo, depth, min, bidx + 1, best')
  {
    var button := buttons[bidx];
    if best.None? {
      assert FirstPress(buttons, state, prev, memo, 0) == Some(bidx);
    }
    if best' != best && v != USIZE_MAX {
      ReachesCons(buttons, state, prev, memo, depth, button, v);
    }
    CoversPress(buttons, state, prev, memo, depth, min, bidx, best, v, best');
  }

  /** After every button: nothing found means the search stalls, and what was found covers
      every improving path. */
  lemma SearchEnd(buttons: seq<nat>, state: nat, prev: nat, memo: set<nat>, depth: nat,
                  min: Option<nat>, best: Option<nat>)
    requires depth < INDICATOR_DEPTH && state != 0
    requires SearchLoop(buttons, state, prev, memo, depth, min, |buttons|, best)
    ensures best.None? <==> min.None? && Stalls(buttons, state, prev, memo, depth)
    ensures best.Some? ==> forall ps {:trigger IndicatorPath(buttons, state, prev, memo, ps)} ::
      IndicatorPath(buttons, state, prev, memo, ps) && Improves(depth + |ps|, min, INDICATOR_DEPTH) ==>
        best.value <= depth + |ps|
  {
    if best.None? {
      assert FirstPress(buttons, state, prev, memo, 0).None?;
    }
    assert buttons[..|buttons|] == buttons;
    if best.Some? {
      forall ps | IndicatorPath(buttons, state, prev, memo, ps) && Improves(depth + |ps|, min, INDICATOR_DEPTH)
        ensures best.value <= depth + |ps|
      {
        if ps != [] {
          PathHead(buttons, state, prev, memo, ps);
        }
      }
    }
  }

  /** The top-level call of part one: from the wanted lights, no previous button, depth 0 and
      an empty memo. A finite answer is a number of presses below 10 that some search path
      takes, and no search path is shorter; usize::MAX means no search path of fewer than 10
      presses exists. */
  method MinIndicatorPresses(buttons: seq<nat>, desiredState: nat) returns (r: Result<nat>)
    ensures r.Err? <==> Stalls(buttons, desiredState, NO_PRESS, {}, 0)
    ensures r.Ok? && r.value != USIZE_MAX ==>
      r.value < INDICATOR_DEPTH && exists ps :: IndicatorPath(buttons, desiredState, NO_PRESS, {}, ps) && |ps| == r.value
    ensures r.Ok? ==> forall ps {:trigger IndicatorPath(buttons, desiredState, NO_PRESS, {}, ps)} ::
      IndicatorPath(buttons, desiredState, NO_PRESS, {}, ps) && |ps| < INDICATOR_DEPTH ==> r.value <= |ps|
    ensures r.Ok? && r.value != USIZE_MAX ==>
      exists ps :: |ps| == r.value && XorAll(ps) == desiredState &&
        (forall k :: 0 <= k < |ps| ==> ps[k] in buttons) && (forall k :: 0 < k < |ps| ==> ps[k] != ps[k - 1])
  {
    r := IndicatorSearch(buttons, desiredState, None, NO_PRESS, 0, {});
    if r.Ok? && r.value != USIZE_MAX {
      var ps :| IndicatorPath(buttons, desiredState, NO_PRESS, {}, ps) && |ps| == r.value;
      IndicatorPathMeaning(buttons, desiredState, NO_PRESS, {}, ps);
    }
  }

  // ---------------------------------------------------------------------------------------
  // Part two: get_min_joltage_requirement_presses_recurse
  // ---------------------------------------------------------------------------------------

  /** The counters after pressing a button: each counter it is wired to goes up by one. */
  function Pressed(state: seq<nat>, button: nat): (next: seq<nat>)
    requires |state| == 16
    ensures |next| == 16
  {
    seq(16, i requires 0 <= i < 16 => if Bit(button, i) then state[i] + 1 else state[i])
  }

  /** A press is valid when no counter it bumps goes past its requirement. */
  predicate Fits(state: seq<nat>, button: nat, req: seq<nat>)
    requires |state| == 16 && |req| == 16
  {
    forall i :: 0 <= i < 16 && Bit(button, i) ==> state[i] + 1 <= req[i]
  }

  /** The inner while loop of the joltage search: walk the button's bits from the lowest,
      bumping the counter of each set bit and giving up on the press as soon as a counter
      passes its requirement. */
  method PressButton(state: seq<nat>, button: nat, req: seq<nat>) returns (validPress: bool, nextState: seq<nat>)
    requires |state| == 16 && |req| == 16 && button < U16_LIMIT
    ensures validPress <==> Fits(state, button, req)
    ensures validPress ==> nextState == Pressed(state, button)
  {
    var b := button;
    nextState := state;
    var joltageIdx: nat := 0;
    validPress := true;
    ShrAll(button);
    while b > 0
      invariant joltageIdx <= 16 && b == Shr(button, joltageIdx)
      invariant |nextState| == 16
      invariant forall i :: 0 <= i < 16 ==>
        nextState[i] == if i < joltageIdx && Bit(button, i) then state[i] + 1 else state[i]
      invariant forall i :: 0 <= i < joltageIdx && Bit(button, i) ==> state[i] + 1 <= req[i]
      decreases b
    {
      if joltageIdx == 16 {
        assert false;
      }
      if b % 2 == 1 {
        nextState := nextState[joltageIdx := nextState[joltageIdx] + 1];
        if nextState[joltageIdx] > req[joltageIdx] {
          validPress := false;
          break;
        }
      }
      joltageIdx := joltageIdx + 1;
      b := b / 2;
    }
    if validPress {
      forall i | joltageIdx <= i < 16
        ensures !Bit(button, i)
      {
        ShiftedOut(button, joltageIdx, i);
      }
      assert nextState == Pressed(state, button);
    }
  }

  /** A run of presses the joltage search can follow from `state`: it stops as soon as the
      counters meet the requirement; otherwise it presses a button of the machine whose press
      keeps every counter within its requirement, and goes on from there. */
  predicate JoltagePath(buttons: seq<nat>, req: seq<nat>, state: seq<nat>, ps: seq<nat>)
    requires |state| == 16 && |req| == 16
    decreases |ps|
  {
    if state == req then ps == []
    else
      ps != [] && ps[0] in buttons && Fits(state, ps[0], req) &&
      JoltagePath(buttons, req, Pressed(state, ps[0]), ps[1..])
  }

  /** How many presses in the list bump counter i. */
  function PressCount(ps: seq<nat>, i: nat): nat
    requires i < 16
  {
    if ps == [] then 0 else (if Bit(ps[0], i) then 1 else 0) + PressCount(ps[1..], i)
  }

  /** What a search path means: every press is a button of the machine and, counter by
      counter, the start value plus the presses that bump it is exactly the requirement. */
  lemma {:induction false} JoltagePathCounts(buttons: seq<nat>, req: seq<nat>, state: seq<nat>, ps: seq<nat>)
    requires |state| == 16 && |req| == 16
    requires JoltagePath(buttons, req, state, ps)
    ensures forall k :: 0 <= k < |ps| ==> ps[k] in buttons
    ensures forall i :: 0 <= i < 16 ==> state[i] + PressCount(ps, i) == req[i]
    decreases |ps|
  {
    if state != req {
      var next := Pressed(state, ps[0]);
      JoltagePathCounts(buttons, req, next, ps[1..]);
      assert forall k :: 0 < k < |ps| ==> ps[k] == ps[1..][k - 1];
    }
  }

  /** Conversely, presses of non-zero buttons of the machine that bring every counter exactly
      to its requirement are a search path. */
  lemma {:induction false} CountsJoltagePath(buttons: seq<nat>, req: seq<nat>, state: seq<nat>, ps: seq<nat>)
    requires |state| == 16 && |req| == 16
    requires forall k :: 0 <= k < |ps| ==> ps[k] in buttons && 0 < ps[k] < U16_LIMIT
    requires forall i :: 0 <= i < 16 ==> state[i] + PressCount(ps, i) == req[i]
    ensures JoltagePath(buttons, req, state, ps)
    decreases |ps|
  {
    if ps != [] {
      var i := SomeBit(ps[0]);
      assert state[i] < req[i];
      var next := Pressed(state, ps[0]);
      forall k | 0 <= k < |ps[1..]|
        ensures ps[1..][k] in buttons && 0 < ps[1..][k] < U16_LIMIT
      {
        assert ps[1..][k] == ps[k + 1];
      }
      CountsJoltagePath(buttons, req, next, ps[1..]);
    }
  }

  /** The search reached the requirement `v` presses into the machine from this call, v below
      the depth bound. */
  ghost predicate JoltageReaches(buttons: seq<nat>, req: seq<nat>, state: seq<nat>, depth: nat, limit: nat, v: nat)
    requires |state| == 16 && |req| == 16
  {
    depth <= v < limit && exists ps :: JoltagePath(buttons, req, state, ps) && depth + |ps| == v
  }

  /** Every path that starts with one of `first` and would improve on `min` is matched by
      `best`. */
  ghost predicate JoltageCovers(buttons: seq<nat>, req: seq<nat>, state: seq<nat>, depth: nat, limit: nat,
                                min: Option<nat>, first: seq<nat>, best: Option<nat>)
    requires |state| == 16 && |req| == 16
  {
    forall ps {:trigger JoltagePath(buttons, req, state, ps)} ::
      (JoltagePath(buttons, req, state, ps) && ps != [] && ps[0] in first &&
       Improves(depth + |ps|, min, limit)) ==> best.Some? && best.value <= depth + |ps|
  }

  /** The first press of a path from a state short of the requirement. */
  lemma JoltagePathHead(buttons: seq<nat>, req: seq<nat>, state: seq<nat>, ps: seq<nat>)
    requires |state| == 16 && |req| == 16
    requires JoltagePath(buttons, req, state, ps) && ps != []
    ensures state != req && ps[0] in buttons && Fits(state, ps[0], req)
    ensures JoltagePath(buttons, req, Pressed(state, ps[0]), ps[1..])
  {
  }

  /** One valid press followed by a path is a path. */
  lemma JoltageReachesCons(buttons: seq<nat>, req: seq<nat>, state: seq<nat>, depth: nat, limit: nat,
                           button: nat, v: nat)
    requires |state| == 16 && |req| == 16
    requires state != req && button in buttons && Fits(state, button, req)
    requires JoltageReaches(buttons, req, Pressed(state, button), depth + 1, limit, v)
    ensures JoltageReaches(buttons, req, state, depth, limit, v)
  {
    var qs :| JoltagePath(buttons, req, Pressed(state, button), qs) && depth + 1 + |qs| == v;
    var ps := [button] + qs;
    assert ps[1..] == qs;
    assert JoltagePath(buttons, req, state, ps);
  }

  /** A button whose press does not fit starts no path. */
  lemma JoltageCoversSkip(buttons: seq<nat>, req: seq<nat>, state: seq<nat>, depth: nat, limit: nat,
                          min: Option<nat>, bidx: nat, best: Option<nat>)
    requires |state| == 16 && |req| == 16
    requires bidx < |buttons| && !Fits(state, buttons[bidx], req)
    requires JoltageCovers(buttons, req, state, depth, limit, min, buttons[..bidx], best)
    ensures JoltageCovers(buttons, req, state, depth, limit, min, buttons[..bidx + 1], best)
  {
    forall ps | JoltagePath(buttons, req, state, ps) && ps != [] && ps[0] in buttons[..bidx + 1] &&
                Improves(depth + |ps|, min, limit)
      ensures best.Some? && best.value <= depth + |ps|
    {
      JoltagePathHead(buttons, req, state, ps);
      SliceSnocIn(buttons, bidx, ps[0]);
      assert ps[0] in buttons[..bidx];
    }
  }

  /** A button the search presses: the nested call matched every path it could improve on. */
  lemma JoltageCoversPress(buttons: seq<nat>, req: seq<nat>, state: seq<nat>, depth: nat, limit: nat,
                           min: Option<nat>, bidx: nat, best: Option<nat>, res: nat, best': Option<nat>)
    requires |state| == 16 && |req| == 16
    requires bidx < |buttons| && Fits(state, buttons[bidx], req)
    requires JoltageCovers(buttons, req, state, depth, limit, min, buttons[..bidx], best)
    requires best'.Some? && best'.value <= res && (best.Some? ==> best'.value <= best.value)
    requires var next := Pressed(state, buttons[bidx]);
      forall qs {:trigger JoltagePath(buttons, req, next, qs)} ::
        (JoltagePath(buttons, req, next, qs) && Improves(depth + 1 + |qs|, best, limit)) ==>
          res <= depth + 1 + |qs|
    ensures JoltageCovers(buttons, req, state, depth, limit, min, buttons[..bidx + 1], best')
  {
    var button := buttons[bidx];
    forall ps | JoltagePath(buttons, req, state, ps) && ps != [] && ps[0] in buttons[..bidx + 1] &&
                Improves(depth + |ps|, min, limit)
      ensures best'.Some? && best'.value <= depth + |ps|
    {
      SliceSnocIn(buttons, bidx, ps[0]);
      if ps[0] == button {
        JoltagePathHead(buttons, req, state, ps);
        var qs := ps[1..];
        if Improves(depth + 1 + |qs|, best, limit) {
          assert res <= depth + 1 + |qs|;
        }
      } else {
        assert ps[0] in buttons[..bidx];
      }
    }
  }

  /** The recursive search of part two. From the counters `state`, with the best total found
      so far `min` and the presses so far `depth`, it answers usize::MAX when the depth bound
      `limit` or the best total is reached, `depth` when the counters meet the requirement,
      and otherwise the best answer over the buttons whose press keeps every counter within
      its requirement; `min.unwrap_or(usize::MAX)` when there is none. */
  method JoltageSearch(buttons: seq<nat>, req: seq<nat>, state: seq<nat>, min: Option<nat>, depth: nat, limit: nat)
    returns (r: nat)
    requires |state| == 16 && |req| == 16 && limit <= USIZE_MAX
    requires forall k :: 0 <= k < |buttons| ==> buttons[k] < U16_LIMIT
    requires min.Some? ==> min.value <= USIZE_MAX
    ensures r <= USIZE_MAX
    ensures min.Some? ==> r == USIZE_MAX || r <= min.value
    ensures r == USIZE_MAX || (min.Some? && r == min.value) || JoltageReaches(buttons, req, state, depth, limit, r)
    ensures forall ps {:trigger JoltagePath(buttons, req, state, ps)} ::
      JoltagePath(buttons, req, state, ps) && Improves(depth + |ps|, min, limit) ==> r <= depth + |ps|
    decreases limit - depth
  {
    if depth >= limit {
      return USIZE_MAX;
    }
    if min.Some? && min.value <= depth {
      return USIZE_MAX;
    }
    if state == req {
      assert JoltageReaches(buttons, req, state, depth, limit, depth) by {
        assert JoltagePath(buttons, req, state, []);
      }
      return depth;
    }
    var best := min;
    for bidx := 0 to |buttons|
      invariant best.Some? ==> best.value <= USIZE_MAX
      invariant min.Some? ==> best.Some? && best.value <= min.value
      invariant best.Some? ==> best.value == USIZE_MAX || best == min ||
                               JoltageReaches(buttons, req, state, depth, limit, best.value)
      invariant JoltageCovers(buttons, req, state, depth, limit, min, buttons[..bidx], best)
    {
      var button := buttons[bidx];
      var validPress, nextState := PressButton(state, button, req);
      if !validPress {
        JoltageCoversSkip(buttons, req, state, depth, limit, min, bidx, best);
        continue;
      }
      var res := JoltageSearch(buttons, req, nextState, best, depth + 1, limit);
      var best' := best;
      if best.Some? {
        if res < best.value {
          best' := Some(res);
        }
      } else {
        best' := Some(res);
      }
      if best' != best && res != USIZE_MAX {
        JoltageReachesCons(buttons, req, state, depth, limit, button, res);
      }
      JoltageCoversPress(buttons, req, state, depth, limit, min, bidx, best, res, best');
      best := best';
    }
    assert buttons[..|buttons|] == buttons;
    if best.None? {
      return USIZE_MAX;
    }
    return best.value;
  }

  /** The starting counters, all zero. */
  function Zeros(): (state: seq<nat>)
    ensures |state| == 16 && forall i :: 0 <= i < 16 ==> state[i] == 0
  {
    seq(16, _ => 0)
  }

  /** The top-level call of part two: from all-zero counters at depth 0, searching at most a
      tenth of the requirements' total deep. A finite answer is the length of a search path
      shorter than that bound, and no search path is shorter; usize::MAX means there is none
      below the bound. */
  method MinJoltagePresses(buttons: seq<nat>, req: seq<nat>, maxJoltageDepth: nat) returns (r: nat)
    requires |req| == 16 && maxJoltageDepth <= USIZE_MAX
    requires forall k :: 0 <= k < |buttons| ==> buttons[k] < U16_LIMIT
    ensures r != USIZE_MAX ==>
      r < maxJoltageDepth / 10 && exists ps :: JoltagePath(buttons, req, Zeros(), ps) && |ps| == r
    ensures forall ps {:trigger JoltagePath(buttons, req, Zeros(), ps)} ::
      JoltagePath(buttons, req, Zeros(), ps) && |ps| < maxJoltageDepth / 10 ==> r <= |ps|
    ensures r != USIZE_MAX ==>
      exists ps :: |ps| == r && (forall k :: 0 <= k < |ps| ==> ps[k] in buttons) &&
        forall i :: 0 <= i < 16 ==> PressCount(ps, i) == req[i]
  {
    r := JoltageSearch(buttons, req, Zeros(), None, 0, maxJoltageDepth / 10);
    if r != USIZE_MAX {
      var ps :| JoltagePath(buttons, req, Zeros(), ps) && |ps| == r;
      JoltagePathCounts(buttons, req, Zeros(), ps);
    }
  }

  // ---------------------------------------------------------------------------------------
  // count_bits_in_num
  // ---------------------------------------------------------------------------------------

  /** How many of bits 0 .. n-1 are set. */
  function BitsBelow(m: nat, n: nat): (c: nat)
    ensures c <= n
  {
    if n == 0 then 0 else BitsBelow(m, n - 1) + (if Bit(m, n - 1) then 1 else 0)
  }

  /** No bit at or past i is set once the mask shifted by i is 0, so the count stops there. */
  lemma {:induction false} BitsBelowStable(m: nat, i: nat, n: nat)
    requires i <= n && Shr(m, i) == 0
    ensures BitsBelow(m, n) == BitsBelow(m, i)
    decreases n
  {
    if n > i {
      BitsBelowStable(m, i, n - 1);
      ShiftedOut(m, i, n - 1);
    }
  }

  /** Add up the lowest bit and shift right until nothing is left: the number of set bits of
      a u16, at most 16. */
  method CountBitsInNum(num: nat) returns (count: nat)
    requires num < U16_LIMIT
    ensures count == BitsBelow(num, 16) && count <= 16
  {
    var n := num;
    count := 0;
    ghost var i: nat := 0;
    ShrAll(num);
    while n > 0
      invariant i <= 16 && n == Shr(num, i) && count == BitsBelow(num, i)
      decreases n
    {
      if i == 16 {
        assert false;
      }
      count := count + n % 2;
      n := n / 2;
      i := i + 1;
    }
    BitsBelowStable(num, i, 16);
  }
}
