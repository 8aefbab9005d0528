/** The numbering of the nodes of a forest. */
module Positions {
  // A forest with `rows` rows above the bottom one has room for `Pow2(rows)` leaves, numbered from 0;
  // the nodes of each higher row are numbered on from there, row after row, so the top of a full forest
  // is `2 * Pow2(rows) - 2`. The 64-bit expressions the program uses for these functions are proved
  // equal to them in module `BitLevel`.

  /** In ascending order, each position once. */
  ghost predicate Ascending(s: seq<nat>) {
    forall i, j :: 0 <= i < j < |s| ==> s[i] < s[j]
  }

  function Pow2(k: nat): (r: nat)
    ensures r >= 1
  {
    if k == 0 then 1 else 2 * Pow2(k - 1)
  }

  /** `n` divided by 2, `k` times. */
  function Shr(n: nat, k: nat): nat {
    if k == 0 then n else Shr(n, k - 1) / 2
  }

  lemma ShrBound(n: nat, rows: nat, k: nat)
    requires n <= Pow2(rows) && k <= rows
    ensures Shr(n, k) <= Pow2(rows - k)
  {
    if k > 0 {
      ShrBound(n, rows, k - 1);
    }
  }

  lemma ShrNone(v: nat)
    ensures Shr(v, 0) == v
  {
  }

  function Parent(rows: nat, p: nat): nat {
    p / 2 + Pow2(rows)
  }

  function LeftChild(rows: nat, p: nat): nat
    requires p >= Pow2(rows)
  {
    2 * (p - Pow2(rows))
  }

  function RightChild(rows: nat, p: nat): nat
    requires p >= Pow2(rows)
  {
    2 * (p - Pow2(rows)) + 1
  }

  function Sibling(p: nat): nat {
    if p % 2 == 0 then p + 1 else p - 1
  }

  function LeftSib(p: nat): nat {
    p - p % 2
  }

  function RightSib(p: nat): nat {
    if p % 2 == 0 then p + 1 else p
  }

  /** The positions that exist in a forest with `rows` rows. */
  predicate Valid(rows: nat, p: nat) {
    p < 2 * Pow2(rows) - 1
  }

  /** The first position of a row. */
  function Start(rows: nat, row: nat): nat
    requires row <= rows + 1
  {
    PowMono(rows + 1 - row, rows + 1);
    2 * Pow2(rows) - Pow2(rows + 1 - row)
  }

  lemma PowStep(r: nat)
    requires r > 0
    ensures Pow2(r) == 2 * Pow2(r - 1)
  {
  }

  lemma PowMono(a: nat, b: nat)
    requires a <= b
    ensures Pow2(a) <= Pow2(b)
  {
    if a < b {
      PowMono(a, b - 1);
    }
  }

  /** The row of a position: how often one can go down to a child. */
  function Row(rows: nat, p: nat): (r: nat)
    requires Valid(rows, p)
    decreases p
  {
    if p < Pow2(rows) then 0 else 1 + Row(rows, LeftChild(rows, p))
  }

  /** A position lies between the first position of its row and that of the next. */
  lemma {:induction false} RowBounds(rows: nat, p: nat)
    requires Valid(rows, p)
    ensures Row(rows, p) <= rows
    ensures Start(rows, Row(rows, p)) <= p < Start(rows, Row(rows, p) + 1)
    decreases p
  {
    if p >= Pow2(rows) {
      RowBounds(rows, LeftChild(rows, p));
    }
  }

  /** The bounds of its row determine the row of a position. */
  lemma {:induction false} RowUnique(rows: nat, p: nat, row: nat)
    requires Valid(rows, p) && row <= rows
    requires Start(rows, row) <= p < Start(rows, row + 1)
    ensures Row(rows, p) == row
    decreases p
  {
    if p < Pow2(rows) {
      if row > 0 {
        PowMono(rows + 1 - row, rows);
      }
    } else {
      assert row > 0;
      RowUnique(rows, LeftChild(rows, p), row - 1);
    }
  }

  /** How far a position is into its row. */
  function Offset(rows: nat, p: nat): nat
    requires Valid(rows, p)
  {
    RowBounds(rows, p);
    p - Start(rows, Row(rows, p))
  }

  lemma SamePlace(rows: nat, p: nat, q: nat)
    requires Valid(rows, p) && Valid(rows, q)
    requires Row(rows, p) == Row(rows, q) && Offset(rows, p) == Offset(rows, q)
    ensures p == q
  {
  }

  lemma {:induction false} StartEven(rows: nat, row: nat)
    requires row <= rows
    ensures Start(rows, row) % 2 == 0
    ensures Start(rows, row) / 2 + Pow2(rows) == Start(rows, row + 1)
    ensures row == rows ==> Start(rows, row) == 2 * Pow2(rows) - 2
  {
    assert Pow2(rows + 1 - row) == 2 * Pow2(rows - row);
  }

  /** Going to the sibling stays on the row. */
  lemma {:induction false} RowSibling(rows: nat, p: nat)
    requires p < 2 * Pow2(rows) - 2
    ensures Row(rows, p) < rows
    ensures Valid(rows, Sibling(p)) && Row(rows, Sibling(p)) == Row(rows, p) == Row(rows, LeftSib(p))
    ensures Offset(rows, p) % 2 == p % 2
    ensures Offset(rows, Sibling(p)) == Sibling(Offset(rows, p))
  {
    hide Pow2, Start, Row;
    RowBounds(rows, p);
    var r := Row(rows, p);
    StartEven(rows, r);
    StartEven(rows, r + 1);
    RowUnique(rows, Sibling(p), r);
    RowUnique(rows, LeftSib(p), r);
  }

  /** Going up adds a row and halves the offset. */
  lemma {:induction false} RowStep(rows: nat, p: nat)
    requires p < 2 * Pow2(rows) - 2
    ensures Valid(rows, Sibling(p)) && Row(rows, Sibling(p)) == Row(rows, p)
    ensures Valid(rows, Parent(rows, p)) && Row(rows, Parent(rows, p)) == Row(rows, p) + 1
    ensures Offset(rows, p) % 2 == p % 2
    ensures Offset(rows, Sibling(p)) == Sibling(Offset(rows, p))
    ensures Offset(rows, Parent(rows, p)) == Offset(rows, p) / 2
  {
    RowSibling(rows, p);
    StartEven(rows, Row(rows, p));
    assert LeftChild(rows, Parent(rows, p)) == LeftSib(p);
  }

  /** Going down takes away a row and doubles the offset. */
  lemma {:induction false} RowChildren(rows: nat, p: nat)
    requires Valid(rows, p) && p >= Pow2(rows)
    ensures Row(rows, p) > 0
    ensures Valid(rows, LeftChild(rows, p)) && Valid(rows, RightChild(rows, p))
    ensures Row(rows, LeftChild(rows, p)) == Row(rows, p) - 1 == Row(rows, RightChild(rows, p))
    ensures Offset(rows, LeftChild(rows, p)) == 2 * Offset(rows, p)
    ensures Offset(rows, RightChild(rows, p)) == 2 * Offset(rows, p) + 1
  {
    hide Row, Offset, Pow2;
    var l, r := LeftChild(rows, p), RightChild(rows, p);
    RowStep(rows, l);
    RowStep(rows, r);
  }

  /** Whether a position exists in a forest of `n` leaves: its row holds one node
      for each full block of leaves. */
  predicate InForest(rows: nat, n: nat, p: nat) {
    Valid(rows, p) && Offset(rows, p) < Shr(n, Row(rows, p))
  }

  /** A root: a node of the forest without a parent in it. */
  predicate IsRoot(rows: nat, n: nat, p: nat) {
    InForest(rows, n, p) && !InForest(rows, n, Parent(rows, p))
  }

  /** A node that is in the forest and not a root is one of two siblings in the
      forest, below a node of the forest. */
  lemma {:induction false} NonRoot(rows: nat, n: nat, p: nat)
    requires InForest(rows, n, p) && !IsRoot(rows, n, p)
    ensures p < 2 * Pow2(rows) - 2
    ensures InForest(rows, n, Parent(rows, p)) && InForest(rows, n, Sibling(p))
    ensures Parent(rows, Sibling(p)) == Parent(rows, p)
    ensures !IsRoot(rows, n, Sibling(p))
  {
    RowStep(rows, p);
  }

  /** The children of a node of the forest are in the forest, and are not roots. */
  lemma {:induction false} ChildrenInForest(rows: nat, n: nat, p: nat)
    requires InForest(rows, n, p) && p >= Pow2(rows)
    ensures InForest(rows, n, LeftChild(rows, p)) && !IsRoot(rows, n, LeftChild(rows, p))
    ensures InForest(rows, n, RightChild(rows, p)) && !IsRoot(rows, n, RightChild(rows, p))
    ensures RightChild(rows, p) < p
    ensures Parent(rows, LeftChild(rows, p)) == p == Parent(rows, RightChild(rows, p))
  {
    RowStep(rows, LeftChild(rows, p));
  }

  /** A root is a left node, and its right sibling is not in the forest. */
  lemma {:induction false} RootIsLeft(rows: nat, n: nat, p: nat)
    requires n <= Pow2(rows) && IsRoot(rows, n, p)
    ensures p % 2 == 0
    ensures !InForest(rows, n, p + 1)
    ensures Shr(n, Row(rows, p)) % 2 == 1
    ensures Offset(rows, p) == Shr(n, Row(rows, p)) - 1
  {
    if p < 2 * Pow2(rows) - 2 {
      RowStep(rows, p);
    } else {
      RowUnique(rows, p, rows);
      ShrBound(n, rows, rows);
    }
  }
}
