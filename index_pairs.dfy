/** The enumeration of unordered index pairs that two of the solvers perform with nested
    loops: for i in 0..n, for j in i+1..n, visit (i, j). */
module IndexPairs {

  /** Row i of the enumeration: (i, i+1), ..., (i, n-1). */
  function Row(i: nat, n: nat): (r: seq<(nat, nat)>)
    ensures forall k :: 0 <= k < |r| ==> r[k] == (i, i + 1 + k) && r[k].1 < n
  {
    if i + 1 >= n then [] else seq(n - i - 1, k requires 0 <= k < n - i - 1 => (i, i + 1 + k))
  }

  /** Rows 0 .. rows-1 of the enumeration, in visiting order. */
  function RowsUpTo(rows: nat, n: nat): (r: seq<(nat, nat)>)
    ensures forall k :: 0 <= k < |r| ==> r[k].0 < rows && r[k].0 < r[k].1 < n
  {
    if rows == 0 then []
    else
      var prev := RowsUpTo(rows - 1, n);
      var row := Row(rows - 1, n);
      assert forall k :: |prev| <= k < |prev + row| ==> (prev + row)[k] == row[k - |prev|];
      prev + row
  }

  /** Every pair (i, j) with i < j < n, in the order the nested loops visit them. */
  function Pairs(n: nat): seq<(nat, nat)> {
    RowsUpTo(n, n)
  }

  predicate LexLess(a: (nat, nat), b: (nat, nat)) {
    a.0 < b.0 || (a.0 == b.0 && a.1 < b.1)
  }

  lemma {:induction false} RowsUpToOrdered(rows: nat, n: nat)
    ensures forall k, l :: 0 <= k < l < |RowsUpTo(rows, n)| ==> LexLess(RowsUpTo(rows, n)[k], RowsUpTo(rows, n)[l])
  {
    if rows > 0 {
      RowsUpToOrdered(rows - 1, n);
      var prev := RowsUpTo(rows - 1, n);
      var row := Row(rows - 1, n);
      var all := RowsUpTo(rows, n);
      assert all == prev + row;
      forall k, l | 0 <= k < l < |all| ensures LexLess(all[k], all[l]) {
        if l >= |prev| {
          assert all[l] == row[l - |prev|];
          if k >= |prev| {
            assert all[k] == row[k - |prev|];
          } else {
            assert all[k] == prev[k];
          }
        } else {
          assert all[k] == prev[k] && all[l] == prev[l];
        }
      }
    }
  }

  lemma RowsUpToComplete(rows: nat, n: nat)
    ensures forall i: nat, j: nat :: i < rows && i < j < n ==> (i, j) in RowsUpTo(rows, n)
  {
    forall i: nat, j: nat | i < rows && i < j < n ensures (i, j) in RowsUpTo(rows, n) {
      RowsUpToHas(rows, n, i, j);
    }
  }

  lemma {:induction false} RowsUpToHas(rows: nat, n: nat, i: nat, j: nat)
    requires i < rows && i < j < n
    ensures (i, j) in RowsUpTo(rows, n)
  {
    var prev := RowsUpTo(rows - 1, n);
    var row := Row(rows - 1, n);
    assert RowsUpTo(rows, n) == prev + row;
    if i == rows - 1 {
      RowInRows(prev, row, j - i - 1);
    } else {
      RowsUpToHas(rows - 1, n, i, j);
      assert (i, j) in prev;
    }
  }

  lemma RowInRows(prev: seq<(nat, nat)>, row: seq<(nat, nat)>, k: nat)
    requires k < |row|
    ensures row[k] in prev + row
  {
    assert (prev + row)[|prev| + k] == row[k];
  }

  lemma {:induction false} RowsUpToLength(rows: nat, n: nat)
    requires rows <= n
    ensures 2 * |RowsUpTo(rows, n)| == rows * (2 * n - rows - 1)
  {
    if rows > 0 {
      RowsUpToLength(rows - 1, n);
      var prev, row := RowsUpTo(rows - 1, n), Row(rows - 1, n);
      assert RowsUpTo(rows, n) == prev + row;
      RowsArith(rows, n, |prev|, |row|);
    }
  }

  /** The count of the first r rows, one row at a time. */
  lemma RowsArith(r: nat, n: nat, before: nat, last: nat)
    requires 1 <= r <= n && 2 * before == (r - 1) * (2 * n - r) && last == n - r
    ensures 2 * (before + last) == r * (2 * n - r - 1)
  {
    assert (r - 1) * (2 * n - r) == r * (2 * n - r) - (2 * n - r);
    assert r * (2 * n - r - 1) == r * (2 * n - r) - r;
  }

  /** The nested loops visit each pair i < j < n and nothing else, in strictly increasing
      lexicographic order (so each exactly once), n(n-1)/2 of them in all. */
  lemma PairsEnumeration(n: nat)
    ensures forall i: nat, j: nat :: (i, j) in Pairs(n) <==> i < j < n
    ensures forall k, l :: 0 <= k < l < |Pairs(n)| ==> LexLess(Pairs(n)[k], Pairs(n)[l])
    ensures 2 * |Pairs(n)| == n * (n - 1)
  {
    RowsUpToOrdered(n, n);
    RowsUpToComplete(n, n);
    RowsUpToLength(n, n);
    forall i: nat, j: nat | (i, j) in Pairs(n) ensures i < j < n {
      var k :| 0 <= k < |Pairs(n)| && Pairs(n)[k] == (i, j);
    }
  }
}
