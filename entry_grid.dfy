/** The row layout of `src/components/EntryGrid.tsx`: a column count from
    the viewport width, a row count from the column count, and the entries
    split into that many rows of nearly equal length, in order. */
module EntryGrid {
  /** `getTargetColumns`. */
  function TargetColumns(viewportWidth: int): (c: nat)
    ensures 2 <= c <= 4
    ensures c == 2 <==> viewportWidth < 640
    ensures c == 4 <==> viewportWidth >= 1024
  {
    if viewportWidth < 640 then 2
    else if viewportWidth < 1024 then 3
    else 4
  }

  /** The rows put back together. */
  function Concat<T>(rows: seq<seq<T>>): seq<T> {
    if rows == [] then [] else Concat(rows[..|rows| - 1]) + rows[|rows| - 1]
  }

  lemma ConcatPush<T>(rows: seq<seq<T>>, row: seq<T>)
    ensures Concat(rows + [row]) == Concat(rows) + row
  {
    assert (rows + [row])[..|rows|] == rows;
  }

  /** The length of row `r`: the remainder is spread over the first rows. */
  function RowLength(r: nat, base: nat, rem: nat): nat {
    base + (if r < rem then 1 else 0)
  }

  /** Where row `r` starts. */
  function Offset(r: nat, base: nat, rem: nat): nat {
    r * base + (if r < rem then r else rem)
  }

  lemma OffsetStep(r: nat, base: nat, rem: nat)
    ensures Offset(r + 1, base, rem) == Offset(r, base, rem) + RowLength(r, base, rem)
  {
    assert (r + 1) * base == r * base + base;
  }

  lemma {:induction false} OffsetMono(r: nat, n: nat, base: nat, rem: nat)
    requires r <= n
    ensures Offset(r, base, rem) <= Offset(n, base, rem)
    decreases n - r
  {
    if r < n {
      OffsetStep(r, base, rem);
      OffsetMono(r + 1, n, base, rem);
    }
  }

  /** `computeBalancedRows`. */
  method ComputeBalancedRows<T>(items: seq<T>, numRows: int) returns (result: seq<seq<T>>)
    ensures numRows <= 1 ==> result == [items]
    ensures numRows > 1 ==> |result| == numRows
    ensures Concat(result) == items
    ensures numRows > 1 ==> forall r :: 0 <= r < |result| ==>
      |result[r]| == RowLength(r, |items| / numRows, |items| % numRows)
  {
    if numRows <= 1 {
      assert [items][..0] == [];
      return [items];
    }
    var total := |items|;
    var basePerRow := total / numRows;
    var remainder := total % numRows;
    assert Offset(numRows, basePerRow, remainder) == total;
    result := [];
    var index := 0;
    for r := 0 to numRows
      invariant |result| == r
      invariant index == Offset(r, basePerRow, remainder) <= total
      invariant Concat(result) == items[..index]
      invariant forall q :: 0 <= q < r ==> |result[q]| == RowLength(q, basePerRow, remainder)
    {
      var count := basePerRow + (if r < remainder then 1 else 0);
      OffsetStep(r, basePerRow, remainder);
      OffsetMono(r + 1, numRows, basePerRow, remainder);
      ConcatPush(result, items[index..index + count]);
      assert items[..index] + items[index..index + count] == items[..index + count];
      result := result + [items[index..index + count]];
      index := index + count;
    }
    assert items[..index] == items;
  }

  /** Any two rows differ in length by at most one, and longer rows come
      first. */
  lemma Balanced(base: nat, rem: nat, p: nat, q: nat)
    ensures RowLength(p, base, rem) <= RowLength(q, base, rem) + 1
    ensures p <= q ==> RowLength(q, base, rem) <= RowLength(p, base, rem)
  {
  }

  /** `Math.ceil(n / c)` for positive `c`. */
  function CeilDiv(n: nat, c: nat): (k: nat)
    requires c > 0
    ensures n <= k * c < n + c
  {
    var k := (n + c - 1) / c;
    assert k * c + (n + c - 1) % c == n + c - 1;
    k
  }

  /** The `rows` memo: no rows for no entries, else as many balanced rows
      as the column count needs. */
  method Rows<T>(beers: seq<T>, viewportWidth: int) returns (rows: seq<seq<T>>)
    ensures beers == [] ==> rows == []
    ensures beers != [] ==> var cols := TargetColumns(viewportWidth);
      && |rows| == CeilDiv(|beers|, cols)
      && Concat(rows) == beers
      && (forall r :: 0 <= r < |rows| ==> 0 < |rows[r]| <= cols)
  {
    if |beers| == 0 {
      return [];
    }
    var targetColumns := TargetColumns(viewportWidth);
    var desiredRows := CeilDiv(|beers|, targetColumns);
    if desiredRows < 1 {
      desiredRows := 1;
    }
    RowsFit(|beers|, targetColumns);
    rows := ComputeBalancedRows(beers, desiredRows);
  }

  /** With `k = ⌈n / c⌉` rows, every row holds between 1 and `c` entries. */
  lemma RowsFit(n: nat, c: nat)
    requires n > 0 && c > 0
    ensures var k := CeilDiv(n, c);
      && 1 <= k <= n
      && (k == 1 ==> n <= c)
      && (k > 1 ==> forall r :: 0 <= r < k ==> 0 < RowLength(r, n / k, n % k) <= c)
  {
    var k := CeilDiv(n, c);
    CeilBounds(n, c);
    if k > 1 {
      forall r | 0 <= r < k
        ensures 0 < RowLength(r, n / k, n % k) <= c
      {
        RowFits(n, c, k, r);
      }
    }
  }

  lemma CeilBounds(n: nat, c: nat)
    requires n > 0 && c > 0
    ensures 1 <= CeilDiv(n, c) <= n
    ensures CeilDiv(n, c) == 1 ==> n <= c
  {
    var k := CeilDiv(n, c);
    MulCompare(k, 0, c);
    MulCompare(1, c, n);
    MulCompare(n + 1, k, c);
    assert (n + 1) * c == n * c + c;
  }

  lemma RowFits(n: nat, c: nat, k: nat, r: nat)
    requires 1 <= k <= n && n <= k * c && r < k
    ensures 0 < RowLength(r, n / k, n % k) <= c
  {
    var base, rem := n / k, n % k;
    assert n == base * k + rem && rem < k;
    MulCompare(base, 0, k);
    MulCompare(base, c, k);
    MulCompare(c, base, k);
  }

  /** Multiplying by a positive number keeps the order both ways. */
  lemma MulCompare(a: nat, b: nat, m: nat)
    requires m > 0
    ensures a <= b ==> a * m <= b * m
    ensures a > b ==> a * m > b * m
  {
  }
}
