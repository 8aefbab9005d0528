/** Which positions are roots, and where a row ends. */
module Geometry {
  // A forest of `n` leaves has one perfect tree for each bit of `n`; the tree of bit `h` has its root on
  // row `h`.

  import opened Positions

  /** The number of binary digits of `x`. */
  function BitLen(x: nat): nat {
    if x == 0 then 0 else 1 + BitLen(x / 2)
  }

  /** The rows a forest of `n` leaves is allocated: the smallest number with room for them. */
  function TreeRows(n: nat): (rows: nat)
    ensures n <= Pow2(rows)
    ensures rows > 0 ==> n > Pow2(rows - 1)
  {
    if n == 0 then 0 else BitLenBounds(n - 1); BitLen(n - 1)
  }

  lemma {:induction false} BitLenBounds(x: nat)
    ensures x < Pow2(BitLen(x))
    ensures x > 0 ==> x >= Pow2(BitLen(x) - 1)
  {
    if x > 0 {
      BitLenBounds(x / 2);
    }
  }

  /** A row that some block of leaves fills is one of the allocated rows. */
  lemma {:induction false} RowFits(n: nat, row: nat)
    requires Shr(n, row) >= 1
    ensures row <= TreeRows(n)
  {
    ShrPositive(n, row);
    if TreeRows(n) < row {
      PowMono(TreeRows(n), row - 1);
    }
  }

  lemma {:induction false} ShrPositive(n: nat, row: nat)
    requires Shr(n, row) >= 1
    ensures n >= Pow2(row)
  {
    if row > 0 {
      ShrHalf(n, row);
      ShrPositive(n / 2, row - 1);
    }
  }

  lemma {:induction false} ShrHalf(n: nat, row: nat)
    requires row > 0
    ensures Shr(n, row) == Shr(n / 2, row - 1)
  {
    if row > 1 {
      ShrHalf(n, row - 1);
    }
  }

  predicate RootExistsOnRow(n: nat, row: nat) {
    Shr(n, row) % 2 == 1
  }

  /** Where the root of `row` is, if there is one. */
  function RootPosition(n: nat, row: nat, rows: nat): nat
    requires row <= rows
  {
    Start(rows, row) + 2 * Shr(n, row + 1)
  }

  predicate IsRootPositionOnRow(p: nat, n: nat, row: nat) {
    row <= TreeRows(n) && RootExistsOnRow(n, row) && RootPosition(n, row, TreeRows(n)) == p
  }

  /** The position of the same node when the forest is allocated `to` rows. */
  function TranslatePos(p: nat, from: nat, to: nat): nat
    requires Valid(from, p) && Row(from, p) <= to
  {
    Offset(from, p) + Start(to, Row(from, p))
  }

  predicate IsRootPositionOnRowTotalRows(p: nat, n: nat, row: nat, rows: nat)
    requires Valid(rows, p) && Row(rows, p) <= TreeRows(n)
  {
    if TreeRows(n) != rows then
      IsRootPositionOnRow(TranslatePos(p, rows, TreeRows(n)), n, row)
    else
      IsRootPositionOnRow(p, n, row)
  }

  /** A translated node keeps its row and its offset. */
  lemma {:induction false} TranslateRow(p: nat, from: nat, to: nat)
    requires Valid(from, p) && Row(from, p) <= to
    requires Offset(from, p) < Pow2(to - Row(from, p))
    ensures Valid(to, TranslatePos(p, from, to))
    ensures Row(to, TranslatePos(p, from, to)) == Row(from, p)
    ensures Offset(to, TranslatePos(p, from, to)) == Offset(from, p)
  {
    RowBounds(from, p);
    RowUnique(to, TranslatePos(p, from, to), Row(from, p));
  }

  /** A node of the forest is a root exactly when it is the last of its row and has
      no sibling there. */
  lemma {:induction false} RootIff(rows: nat, n: nat, p: nat)
    requires n <= Pow2(rows) && InForest(rows, n, p)
    ensures IsRoot(rows, n, p) <==>
            Shr(n, Row(rows, p)) % 2 == 1 && Offset(rows, p) == Shr(n, Row(rows, p)) - 1
  {
    if IsRoot(rows, n, p) {
      RootIsLeft(rows, n, p);
    } else {
      NonRoot(rows, n, p);
      RowStep(rows, p);
    }
  }

  /** On the row of a node of the forest, the arithmetic test for roots finds the
      node without a parent. */
  lemma {:induction false} RootTest(rows: nat, n: nat, p: nat)
    requires n <= Pow2(rows) && InForest(rows, n, p)
    ensures Row(rows, p) <= TreeRows(n)
    ensures IsRootPositionOnRowTotalRows(p, n, Row(rows, p), rows) <==> IsRoot(rows, n, p)
  {
    var row := Row(rows, p);
    RowFits(n, row);
    RootIff(rows, n, p);
    var s := Shr(n, row);
    assert Shr(n, row + 1) == s / 2;
    assert RootPosition(n, row, TreeRows(n)) == Start(TreeRows(n), row) + 2 * (s / 2);
    assert TranslatePos(p, rows, TreeRows(n)) == Offset(rows, p) + Start(TreeRows(n), row);
  }

  /** The last position a row can hold when the forest is full. */
  function MaxPossiblePosAtRow(row: nat, rows: nat): nat
    requires row <= rows
  {
    PowMono(rows - row, rows);
    Start(rows, row + 1) - 1
  }

  /** The last position a row can hold for `n` leaves, or 0 above the top row. */
  function MaxPositionAtRow(row: nat, rows: nat, n: nat): nat {
    var max := if row == 0 then n else if row > rows then 0 else Start(rows, row) + Shr(n, row);
    if max != 0 then max - 1 else 0
  }

  /** A node of the forest is on or above a row exactly when it is not beyond the
      end of every row below: either bound tells the rows apart. */
  lemma {:induction false} RowEnds(rows: nat, n: nat, p: nat, row: nat)
    requires n <= Pow2(rows) && InForest(rows, n, p) && row <= Row(rows, p)
    ensures Row(rows, p) <= rows
    ensures p > MaxPossiblePosAtRow(row, rows) <==> row < Row(rows, p)
    ensures p > MaxPositionAtRow(row, rows, n) <==> row < Row(rows, p)
  {
    RowBounds(rows, p);
    var r := Row(rows, p);
    if row < r {
      PowMono(rows + 1 - r, rows - row);
      ShrBound(n, rows, row);
    }
  }

  /** Higher positions are on higher rows. */
  lemma {:induction false} RowMonotone(rows: nat, p: nat, q: nat)
    requires p <= q && Valid(rows, q)
    ensures Row(rows, p) <= Row(rows, q) <= rows
  {
    RowBounds(rows, p);
    RowBounds(rows, q);
    if Row(rows, q) < Row(rows, p) {
      PowMono(rows + 1 - Row(rows, p), rows - Row(rows, q));
    }
  }
}
