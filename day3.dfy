/** Day 3: each input line is a bank of batteries, one digit each. From every bank the
    solver switches on a fixed number of batteries, keeping their order, so that the digits
    read as the largest possible number, and adds up those numbers. It picks greedily: the
    first largest digit that still leaves enough batteries after it, then the same on the
    rest. */
module Day3 {
  import opened Common

  // ---------------------------------------------------------------------------------------
  // Picking the next battery
  // ---------------------------------------------------------------------------------------

  /** The first index among 0 .. w-1 that holds the largest value there. */
  function FirstMax(s: seq<nat>, w: nat): (i: nat)
    requires 0 < w <= |s|
    ensures i < w
  {
    if w == 1 then 0
    else
      var j := FirstMax(s, w - 1);
      if s[w - 1] > s[j] then w - 1 else j
  }

  /** FirstMax holds a largest value of the window, and every earlier position holds less. */
  lemma {:induction false} FirstMaxIsFirstMax(s: seq<nat>, w: nat)
    requires 0 < w <= |s|
    ensures forall j :: 0 <= j < w ==> s[j] <= s[FirstMax(s, w)]
    ensures forall j :: 0 <= j < FirstMax(s, w) ==> s[j] < s[FirstMax(s, w)]
  {
    if w > 1 {
      FirstMaxIsFirstMax(s, w - 1);
    }
  }

  /** Where get_best_start lands: the first largest value among the positions that leave
      count - 1 values after them; position 0 when there are not enough values. */
  function BestStart(bank: seq<nat>, count: nat): (i: nat)
    requires count >= 1
    ensures bank != [] ==> i < |bank|
    ensures count <= |bank| ==> i + count <= |bank|
  {
    if count <= |bank| then FirstMax(bank, |bank| - count + 1) else 0
  }

  method GetBestStart(bank: seq<nat>, batteriesCount: nat) returns (bestStartIdx: nat)
    requires batteriesCount >= 1
    ensures bestStartIdx == BestStart(bank, batteriesCount)
    ensures batteriesCount <= |bank| ==> bestStartIdx + batteriesCount <= |bank|
    ensures batteriesCount <= |bank| ==>
      && (forall j :: 0 <= j <= |bank| - batteriesCount ==> bank[j] <= bank[bestStartIdx])
      && (forall j :: 0 <= j < bestStartIdx ==> bank[j] < bank[bestStartIdx])
  {
    var bestStart := 0;
    bestStartIdx := 0;
    var idx := 0;
    while idx + batteriesCount - 1 < |bank|
      invariant batteriesCount <= |bank| ==> idx <= |bank| - batteriesCount + 1
      invariant batteriesCount > |bank| ==> idx == 0
      invariant idx == 0 ==> bestStartIdx == 0 && bestStart == 0
      invariant idx > 0 ==> bestStartIdx == FirstMax(bank, idx) && bestStart == bank[bestStartIdx]
    {
      var cbat := bank[idx];
      if cbat > bestStart {
        bestStart := cbat;
        bestStartIdx := idx;
      }
      idx := idx + 1;
    }
    if batteriesCount <= |bank| {
      FirstMaxIsFirstMax(bank, |bank| - batteriesCount + 1);
    }
  }

  // ---------------------------------------------------------------------------------------
  // Picking all the batteries of a bank
  // ---------------------------------------------------------------------------------------

  /** The digits get_bank_joltage switches on, in order. */
  function GreedyDigits(bank: seq<nat>, count: nat): (ds: seq<nat>)
    ensures |ds| <= count
    decreases count
  {
    if count == 0 || bank == [] then []
    else
      var i := BestStart(bank, count);
      [bank[i]] + GreedyDigits(bank[i + 1..], count - 1)
  }

  /** The indices of those digits in the bank. */
  function GreedyIndices(bank: seq<nat>, count: nat): (idxs: seq<nat>)
    decreases count
  {
    if count == 0 || bank == [] then []
    else
      var i := BestStart(bank, count);
      [i] + Shifted(GreedyIndices(bank[i + 1..], count - 1), i + 1)
  }

  /** Indices into a suffix that starts at `offset`, as indices into the whole. */
  function Shifted(idxs: seq<nat>, offset: nat): (r: seq<nat>)
    ensures |r| == |idxs| && forall k :: 0 <= k < |r| ==> r[k] == idxs[k] + offset
  {
    seq(|idxs|, k requires 0 <= k < |idxs| => idxs[k] + offset)
  }

  /** A bank with at least `count` batteries gets exactly `count` of them switched on. */
  lemma {:induction false} GreedyLength(bank: seq<nat>, count: nat)
    requires count <= |bank|
    ensures |GreedyDigits(bank, count)| == count
    decreases count
  {
    if count > 0 {
      var i := BestStart(bank, count);
      GreedyLength(bank[i + 1..], count - 1);
    }
  }

  /** The number the picked digits read as, most significant first (num * 10 + digit). */
  function Joltage(ds: seq<nat>): nat {
    if ds == [] then 0 else Joltage(ds[..|ds| - 1]) * 10 + ds[|ds| - 1]
  }

  predicate IsDigitBank(bank: seq<nat>) {
    forall k :: 0 <= k < |bank| ==> bank[k] <= 9
  }

  /** Reading the first digit on its own: it is worth 10 ^ (number of digits after it). */
  lemma {:induction false} JoltageCons(d: nat, ds: seq<nat>)
    ensures Joltage([d] + ds) == d * Pow10(|ds|) + Joltage(ds)
    decreases |ds|
  {
    if ds == [] {
      assert [d] + ds == [d];
      assert [d][..0] == [];
    } else {
      var init := ds[..|ds| - 1];
      var last := ds[|ds| - 1];
      assert ([d] + ds)[..|ds|] == [d] + init;
      assert ([d] + ds)[|ds|] == last;
      JoltageCons(d, init);
      var p, ji := Pow10(|init|), Joltage(init);
      assert Joltage(ds) == ji * 10 + last;
      assert Joltage([d] + ds) == (d * p + ji) * 10 + last;
      assert (d * p + ji) * 10 + last == d * (10 * p) + (ji * 10 + last);
    }
  }

  lemma {:induction false} JoltageBound(ds: seq<nat>)
    requires IsDigitBank(ds)
    ensures Joltage(ds) < Pow10(|ds|)
  {
    if ds != [] {
      JoltageBound(ds[..|ds| - 1]);
    }
  }

  /** A bank's joltage has no more digits than batteries switched on. */
  lemma BankJoltageBound(bank: seq<nat>, count: nat)
    requires IsDigitBank(bank)
    ensures Joltage(GreedyDigits(bank, count)) < Pow10(count)
  {
    var ds := GreedyDigits(bank, count);
    GreedyIsPick(bank, count);
    assert IsDigitBank(ds) by {
      var idxs := GreedyIndices(bank, count);
      forall k | 0 <= k < |ds| ensures ds[k] <= 9 {
        assert Picked(bank, idxs)[k] == bank[idxs[k]];
      }
    }
    JoltageBound(ds);
    Pow10Monotone(|ds|, count);
  }

  lemma {:induction false} Pow10Monotone(a: nat, b: nat)
    requires a <= b
    ensures Pow10(a) <= Pow10(b)
  {
    if a < b {
      Pow10Monotone(a, b - 1);
    }
  }

  /** Indices of `count` switched-on batteries: in the bank and strictly increasing. */
  ghost predicate IsPick(bank: seq<nat>, idxs: seq<nat>) {
    && (forall k :: 0 <= k < |idxs| ==> idxs[k] < |bank|)
    && (forall k, l :: 0 <= k < l < |idxs| ==> idxs[k] < idxs[l])
  }

  function Picked(bank: seq<nat>, idxs: seq<nat>): (ds: seq<nat>)
    requires forall k :: 0 <= k < |idxs| ==> idxs[k] < |bank|
    ensures |ds| == |idxs| && forall k :: 0 <= k < |idxs| ==> ds[k] == bank[idxs[k]]
  {
    seq(|idxs|, k requires 0 <= k < |idxs| => bank[idxs[k]])
  }

  /** The greedy choice is itself a pick. */
  lemma {:induction false} GreedyIsPick(bank: seq<nat>, count: nat)
    ensures IsPick(bank, GreedyIndices(bank, count))
    ensures Picked(bank, GreedyIndices(bank, count)) == GreedyDigits(bank, count)
    decreases count
  {
    if count > 0 && bank != [] {
      var i := BestStart(bank, count);
      var tail := bank[i + 1..];
      GreedyIsPick(tail, count - 1);
      var rest := GreedyIndices(tail, count - 1);
      assert GreedyIndices(bank, count) == [i] + Shifted(rest, i + 1);
      assert GreedyDigits(bank, count) == [bank[i]] + GreedyDigits(tail, count - 1);
      ConsPick(bank, i, rest);
    }
  }

  /** Putting index i in front of a pick from the batteries after i gives a pick. */
  lemma ConsPick(bank: seq<nat>, i: nat, rest: seq<nat>)
    requires i < |bank| && IsPick(bank[i + 1..], rest)
    ensures IsPick(bank, [i] + Shifted(rest, i + 1))
    ensures Picked(bank, [i] + Shifted(rest, i + 1)) == [bank[i]] + Picked(bank[i + 1..], rest)
  {
    var sh := Shifted(rest, i + 1);
    var idxs := [i] + sh;
    forall k | 1 <= k < |idxs| ensures idxs[k] == rest[k - 1] + i + 1 {
      assert idxs[k] == sh[k - 1];
    }
    var lhs := Picked(bank, idxs);
    var rhs := [bank[i]] + Picked(bank[i + 1..], rest);
    forall k | 1 <= k < |idxs| ensures lhs[k] == rhs[k] {
      assert rhs[k] == Picked(bank[i + 1..], rest)[k - 1];
    }
  }

  /** The first of n increasing indices leaves room for the other n - 1. */
  lemma {:induction false} PickRoom(bank: seq<nat>, idxs: seq<nat>)
    requires IsPick(bank, idxs) && |idxs| > 0
    ensures idxs[0] + |idxs| <= |bank|
    decreases |idxs|
  {
    if |idxs| > 1 {
      PickRoom(bank, idxs[1..]);
    }
  }

  /** Greedy optimality: no choice of `count` batteries, kept in order, reads as a larger
      number than the one get_bank_joltage builds. */
  lemma {:induction false} GreedyIsBest(bank: seq<nat>, idxs: seq<nat>)
    requires IsDigitBank(bank) && IsPick(bank, idxs)
    ensures Joltage(Picked(bank, idxs)) <= Joltage(GreedyDigits(bank, |idxs|))
    decreases |idxs|, 1
  {
    var count := |idxs|;
    if count > 0 {
      var a, b, x, r1, r2 := FirstDigits(bank, idxs);
      if a == b {
        RestIsBest(bank, idxs);
      }
      LeadingDigitWins(a, b, x, r1, r2, Joltage(Picked(bank, idxs)), Joltage(GreedyDigits(bank, count)));
    }
  }

  /** On a tie of first digits, the rest of the pick is a pick after the best start, so by
      induction it reads as no more than the rest of the greedy choice. */
  lemma RestIsBest(bank: seq<nat>, idxs: seq<nat>)
    requires IsDigitBank(bank) && IsPick(bank, idxs) && |idxs| > 0
    requires |idxs| <= |bank| && BestStart(bank, |idxs|) <= idxs[0]
    ensures Joltage(Picked(bank, idxs)[1..])
      <= Joltage(GreedyDigits(bank[BestStart(bank, |idxs|) + 1..], |idxs| - 1))
    decreases |idxs|, 0
  {
    var i := BestStart(bank, |idxs|);
    var shifted := PickTail(bank, idxs, i);
    SuffixDigits(bank, i + 1);
    var tail := bank[i + 1..];
    var g := GreedyDigits(tail, |idxs| - 1);
    assert GreedyDigits(tail, |shifted|) == g;
    var p := Picked(bank, idxs)[1..];
    var j1 := Joltage(p);
    var j2 := Joltage(g);
    GreedyIsBest(tail, shifted);
    assert j1 <= j2;
  }

  /** A pick and the greedy choice, each cut into its first digit (worth x = 10 ^ (count - 1))
      and the number the other digits read as. The greedy first digit is at least as large,
      and on a tie the pick starts at or after the best start. */
  lemma FirstDigits(bank: seq<nat>, idxs: seq<nat>) returns (a: nat, b: nat, x: nat, r1: nat, r2: nat)
    requires IsDigitBank(bank) && IsPick(bank, idxs) && |idxs| > 0
    ensures |idxs| <= |bank|
    ensures Joltage(Picked(bank, idxs)) == a * x + r1 && r1 == Joltage(Picked(bank, idxs)[1..])
    ensures Joltage(GreedyDigits(bank, |idxs|)) == b * x + r2
    ensures r2 == Joltage(GreedyDigits(bank[BestStart(bank, |idxs|) + 1..], |idxs| - 1))
    ensures r1 < x && a <= b
    ensures a == b ==> BestStart(bank, |idxs|) <= idxs[0]
  {
    var count := |idxs|;
    PickRoom(bank, idxs);
    var i := BestStart(bank, count);
    BestStartBeatsPick(bank, idxs);
    var p := Picked(bank, idxs);
    var pr := p[1..];
    a, b, x := bank[idxs[0]], bank[i], Pow10(count - 1);
    r1 := Joltage(pr);
    r2 := Joltage(GreedyDigits(bank[i + 1..], count - 1));
    PickedCons(bank, idxs);
    GreedyCons(bank, count);
    PickedDigits(bank, idxs);
    JoltageBound(pr);
    assert |pr| == count - 1;
  }

  /** The pick's first digit sits in get_best_start's window, so it is no larger than the
      best start's, and when equal it does not come before the best start. */
  lemma BestStartBeatsPick(bank: seq<nat>, idxs: seq<nat>)
    requires IsPick(bank, idxs) && 0 < |idxs| <= |bank| && idxs[0] + |idxs| <= |bank|
    ensures bank[idxs[0]] <= bank[BestStart(bank, |idxs|)]
    ensures bank[idxs[0]] == bank[BestStart(bank, |idxs|)] ==> BestStart(bank, |idxs|) <= idxs[0]
  {
    FirstMaxIsFirstMax(bank, |bank| - |idxs| + 1);
  }

  /** A pick's number: its first digit, then the rest. */
  lemma PickedCons(bank: seq<nat>, idxs: seq<nat>)
    requires IsPick(bank, idxs) && |idxs| > 0
    ensures Joltage(Picked(bank, idxs))
      == bank[idxs[0]] * Pow10(|idxs| - 1) + Joltage(Picked(bank, idxs)[1..])
  {
    var p := Picked(bank, idxs);
    HeadTail(p);
    JoltageConsLength(p, p[0], p[1..], |idxs| - 1);
  }

  lemma HeadTail(p: seq<nat>)
    requires |p| > 0
    ensures p == [p[0]] + p[1..]
  {
  }

  /** The greedy choice: the best start's digit, then the greedy choice after it. */
  lemma GreedySplit(bank: seq<nat>, count: nat, g: seq<nat>, d: nat, rest: seq<nat>)
    requires 0 < count <= |bank| && g == GreedyDigits(bank, count)
    requires d == bank[BestStart(bank, count)]
    requires rest == GreedyDigits(bank[BestStart(bank, count) + 1..], count - 1)
    ensures g == [d] + rest && |rest| == count - 1
  {
    GreedyLength(bank[BestStart(bank, count) + 1..], count - 1);
  }

  /** The greedy number: the best start's digit, then the greedy number of what follows it. */
  lemma GreedyCons(bank: seq<nat>, count: nat)
    requires 0 < count <= |bank|
    ensures Joltage(GreedyDigits(bank, count))
      == bank[BestStart(bank, count)] * Pow10(count - 1)
         + Joltage(GreedyDigits(bank[BestStart(bank, count) + 1..], count - 1))
  {
    var i := BestStart(bank, count);
    var d, rest := bank[i], GreedyDigits(bank[i + 1..], count - 1);
    var g := GreedyDigits(bank, count);
    GreedySplit(bank, count, g, d, rest);
    JoltageConsLength(g, d, rest, count - 1);
  }

  /** JoltageCons for a sequence already known to be a digit followed by k more. */
  lemma JoltageConsLength(ds: seq<nat>, d: nat, rest: seq<nat>, k: nat)
    requires ds == [d] + rest && |rest| == k
    ensures Joltage(ds) == d * Pow10(k) + Joltage(rest)
  {
    JoltageCons(d, rest);
  }

  lemma PickedDigits(bank: seq<nat>, idxs: seq<nat>)
    requires IsDigitBank(bank) && IsPick(bank, idxs)
    ensures IsDigitBank(Picked(bank, idxs))
    ensures |idxs| > 0 ==> IsDigitBank(Picked(bank, idxs)[1..])
  {
    var p := Picked(bank, idxs);
    forall k | 0 <= k < |p| ensures p[k] <= 9 {
      assert p[k] == bank[idxs[k]];
    }
    if p != [] {
      SuffixDigits(p, 1);
    }
  }

  /** When the first picked digit sits at or after the best start and equals its digit, the
      other picks are a pick of the batteries after the best start. */
  lemma PickTail(bank: seq<nat>, idxs: seq<nat>, i: nat) returns (shifted: seq<nat>)
    requires IsPick(bank, idxs) && |idxs| > 0 && i <= idxs[0] < |bank|
    ensures |shifted| == |idxs| - 1
    ensures IsPick(bank[i + 1..], shifted)
    ensures Joltage(Picked(bank[i + 1..], shifted)) == Joltage(Picked(bank, idxs)[1..])
  {
    shifted := seq(|idxs| - 1, k requires 0 <= k < |idxs| - 1 => idxs[k + 1] - (i + 1));
    var tail := bank[i + 1..];
    forall k | 0 <= k < |shifted| ensures shifted[k] < |tail| && tail[shifted[k]] == bank[idxs[k + 1]] {
      assert idxs[0] < idxs[k + 1];
    }
    forall k, l | 0 <= k < l < |shifted| ensures shifted[k] < shifted[l] {
      assert idxs[k + 1] < idxs[l + 1];
    }
    assert Picked(tail, shifted) == Picked(bank, idxs)[1..];
  }

  lemma SuffixDigits(bank: seq<nat>, j: nat)
    requires IsDigitBank(bank) && j <= |bank|
    ensures IsDigitBank(bank[j..])
  {
    assert forall k :: 0 <= k < |bank| - j ==> bank[j..][k] == bank[j + k];
  }

  /** Two numbers of the same length: the larger leading digit wins, and on a tie the rest
      decides. */
  lemma LeadingDigitWins(a: nat, b: nat, x: nat, r1: nat, r2: nat, n1: nat, n2: nat)
    requires n1 == a * x + r1 && n2 == b * x + r2
    requires r1 < x && a <= b && (a == b ==> r1 <= r2)
    ensures n1 <= n2
  {
    if a < b {
      MulLe(a + 1, b, x);
      assert (a + 1) * x == a * x + x;
    }
  }

  /** get_bank_joltage's loop state: the digits switched on so far, followed by the greedy
      choice on what is left, are the greedy choice on the whole bank. */
  ghost predicate GreedyRemains(bank: seq<nat>, count: nat, picked: seq<nat>, current: nat, remaining: nat) {
    current <= |bank| && picked + GreedyDigits(bank[current..], remaining) == GreedyDigits(bank, count)
  }

  /** One trip round get_bank_joltage's loop: switching on the best start of what is left
      keeps GreedyRemains. */
  lemma GreedyStep(bank: seq<nat>, count: nat, picked: seq<nat>, current: nat, remaining: nat,
                   picked': seq<nat>, current': nat, remaining': nat)
    requires GreedyRemains(bank, count, picked, current, remaining)
    requires current < |bank| && remaining > 0
    requires current' == current + BestStart(bank[current..], remaining) + 1 && remaining' == remaining - 1
    requires picked' == picked + [bank[current + BestStart(bank[current..], remaining)]]
    ensures GreedyRemains(bank, count, picked', current', remaining')
  {
    var b := BestStart(bank[current..], remaining);
    GreedyUnfold(bank, current, remaining);
    AppendAssoc(picked, [bank[current + b]], GreedyDigits(bank[current'..], remaining'));
  }

  /** The greedy choice on a suffix: its best start's digit, then the greedy choice after it. */
  lemma GreedyUnfold(bank: seq<nat>, current: nat, remaining: nat)
    requires current < |bank| && remaining > 0
    ensures GreedyDigits(bank[current..], remaining)
      == [bank[current + BestStart(bank[current..], remaining)]]
         + GreedyDigits(bank[current + BestStart(bank[current..], remaining) + 1..], remaining - 1)
  {
    var rest := bank[current..];
    var b := BestStart(rest, remaining);
    assert rest[b + 1..] == bank[current + b + 1..];
  }

  lemma AppendAssoc(a: seq<nat>, b: seq<nat>, c: seq<nat>)
    ensures a + (b + c) == (a + b) + c
  {
  }

  lemma JoltageSnoc(ds: seq<nat>, d: nat)
    ensures Joltage(ds + [d]) == Joltage(ds) * 10 + d
  {
    assert (ds + [d])[..|ds|] == ds;
  }

  /** get_bank_joltage: switch on `batteriesCount` batteries greedily and read their digits
      as one number. */
  method GetBankJoltage(bank: seq<nat>, batteriesCount: nat) returns (joltage: nat)
    ensures joltage == Joltage(GreedyDigits(bank, batteriesCount))
  {
    var remainingBatteries := batteriesCount;
    var currentIdx := 0;
    joltage := 0;
    ghost var picked: seq<nat> := [];
    assert bank[currentIdx..] == bank;
    assert picked + GreedyDigits(bank, batteriesCount) == GreedyDigits(bank, batteriesCount);
    while currentIdx < |bank| && remainingBatteries > 0
      invariant GreedyRemains(bank, batteriesCount, picked, currentIdx, remainingBatteries)
      invariant joltage == Joltage(picked)
      decreases |bank| - currentIdx
    {
      var bestStartIdx := GetBestStart(bank[currentIdx..], remainingBatteries);
      var digit := bank[currentIdx + bestStartIdx];
      joltage := joltage * 10 + digit;
      JoltageSnoc(picked, digit);
      ghost var picked0, current0, remaining0 := picked, currentIdx, remainingBatteries;
      picked := picked + [digit];
      currentIdx := currentIdx + bestStartIdx + 1;
      remainingBatteries := remainingBatteries - 1;
      GreedyStep(bank, batteriesCount, picked0, current0, remaining0, picked, currentIdx, remainingBatteries);
    }
    assert currentIdx == |bank| ==> bank[currentIdx..] == [];
    assert GreedyDigits(bank[currentIdx..], remainingBatteries) == [];
    assert picked + [] == picked;
  }

  // ---------------------------------------------------------------------------------------
  // The two stars
  // ---------------------------------------------------------------------------------------

  /** Bytes each less b'0'; a byte below '0' makes the u8 subtraction overflow. */
  function BankOfBytes(bytes: seq<nat>): (r: Result<seq<nat>>)
    ensures r.Ok? ==> |r.value| == |bytes|
    ensures r.Ok? ==> forall k :: 0 <= k < |bytes| ==> r.value[k] == bytes[k] - '0' as int
    ensures r.Err? <==> exists k :: 0 <= k < |bytes| && bytes[k] < '0' as int
  {
    if bytes == [] then Ok([])
    else
      var rest := BankOfBytes(bytes[1..]);
      if bytes[0] < '0' as int then Err("attempt to subtract with overflow")
      else if rest.Err? then
        assert forall k :: 1 <= k < |bytes| ==> bytes[1..][k - 1] == bytes[k];
        Err(rest.msg)
      else
        var d: nat := bytes[0] - '0' as int;
        var all: seq<nat> := [d] + rest.value;
        assert forall k :: 1 <= k < |bytes| ==> bytes[1..][k - 1] == bytes[k] && all[k] == rest.value[k - 1];
        Ok(all)
  }

  /** star_one and star_two's bank: the line's UTF-8 bytes (`as_bytes`), each less b'0'. */
  function BankOf(line: string): Result<seq<nat>> {
    BankOfBytes(Utf8Of(line))
  }

  /** The bank has one value per byte of the line, the byte less b'0', and the line fails
      exactly when some character lies below '0' (every byte of a character from 0x80 up is
      at least 0x80, so only such a character yields a byte below '0'). */
  lemma BankOfSpec(line: string)
    ensures var r := BankOf(line);
            && (r.Ok? ==> |r.value| == |Utf8Of(line)|
                          && forall k :: 0 <= k < |Utf8Of(line)| ==> r.value[k] == Utf8Of(line)[k] - '0' as int)
            && (r.Err? <==> exists k :: 0 <= k < |line| && line[k] < '0')
  {
    Utf8OfBelow(line, '0' as int);
  }

  /** A line of decimal digits gives the bank of their values. */
  lemma DigitLineBank(line: string)
    requires AllDigits(line)
    ensures BankOf(line).Ok? && IsDigitBank(BankOf(line).value)
    ensures |BankOf(line).value| == |line|
    ensures forall k :: 0 <= k < |line| ==> BankOf(line).value[k] == DigitValue(line[k])
  {
    Utf8OfAscii(line);
  }

  /** The sum over the lines of each bank's greedy joltage; a line that is not a bank is an
      error. */
  function TotalJoltage(lines: seq<string>, count: nat): Result<nat> {
    if lines == [] then Ok(0)
    else
      var prev := TotalJoltage(lines[..|lines| - 1], count);
      var bank := BankOf(lines[|lines| - 1]);
      if prev.Err? then prev
      else if bank.Err? then Err(bank.msg)
      else Ok(prev.value + Joltage(GreedyDigits(bank.value, count)))
  }

  /** The fold both stars run over the lines. */
  method SumBankJoltages(input: string, batteriesCount: nat) returns (r: Result<nat>)
    ensures r == TotalJoltage(Lines(input), batteriesCount)
  {
    var lines := Lines(input);
    var joltageAcc := 0;
    for i := 0 to |lines|
      invariant TotalJoltage(lines[..i], batteriesCount) == Ok(joltageAcc)
    {
      var bankBytes := BankOf(lines[i]);
      if bankBytes.Err? {
        TotalJoltageFails(lines, batteriesCount, i, joltageAcc);
        return Err(bankBytes.msg);
      }
      var bankJoltage := GetBankJoltage(bankBytes.value, batteriesCount);
      ghost var before := joltageAcc;
      joltageAcc := joltageAcc + bankJoltage;
      TotalJoltageAdds(lines, batteriesCount, i, before, bankJoltage, joltageAcc);
    }
    assert lines[..|lines|] == lines;
    return Ok(joltageAcc);
  }

  /** A bank that parses adds its joltage to the running total. */
  lemma TotalJoltageAdds(lines: seq<string>, count: nat, i: nat, acc: nat, joltage: nat, acc': nat)
    requires i < |lines| && TotalJoltage(lines[..i], count) == Ok(acc)
    requires BankOf(lines[i]).Ok? && joltage == Joltage(GreedyDigits(BankOf(lines[i]).value, count))
    requires acc' == acc + joltage
    ensures TotalJoltage(lines[..i + 1], count) == Ok(acc')
  {
    TakeInit(lines, i);
  }

  /** The first line that does not parse decides the outcome of the whole fold. */
  lemma TotalJoltageFails(lines: seq<string>, count: nat, i: nat, acc: nat)
    requires i < |lines| && TotalJoltage(lines[..i], count) == Ok(acc) && BankOf(lines[i]).Err?
    ensures TotalJoltage(lines, count) == Err(BankOf(lines[i]).msg)
  {
    TakeInit(lines, i);
    TotalJoltageErr(lines, count, i + 1, BankOf(lines[i]).msg);
  }

  /** Once a line fails, the total fails with the first failure's message. */
  lemma {:induction false} TotalJoltageErr(lines: seq<string>, count: nat, i: nat, msg: string)
    requires 0 < i <= |lines| && TotalJoltage(lines[..i], count) == Err(msg)
    ensures TotalJoltage(lines, count) == Err(msg)
    decreases |lines| - i
  {
    if i < |lines| {
      TakeInit(lines, i);
      TotalJoltageErr(lines, count, i + 1, msg);
    } else {
      assert lines[..i] == lines;
    }
  }

  method StarOne(input: string) returns (r: Result<nat>)
    ensures r == TotalJoltage(Lines(input), 2)
  {
    r := SumBankJoltages(input, 2);
  }

  method StarTwo(input: string) returns (r: Result<nat>)
    ensures r == TotalJoltage(Lines(input), 12)
  {
    r := SumBankJoltages(input, 12);
  }
}
