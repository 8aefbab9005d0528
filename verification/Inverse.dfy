/** Moving up after a deletion, and moving back. */
module Inverse {
  import opened Options
  import opened Positions
  import opened Geometry
  import opened Layouts
  import opened Deletion
  import opened Sequential
  import opened Navigation

  lemma {:induction false} RemoveAdded(v: nat, k: nat, b: bool)
    ensures RemoveBit(AddBit(v, k, b), k) == v
  {
    if k > 0 {
      RemoveAdded(v / 2, k - 1, b);
    }
  }

  /** Putting back the bit that was removed. */
  lemma {:induction false} AddRemoved(v: nat, k: nat)
    ensures AddBit(RemoveBit(v, k), k, Shr(v, k) % 2 == 1) == v
  {
    hide RemoveBit, AddBit, Shr;
    var r := RemoveBit(v, k);
    RemoveBitStep(v, k);
    AddBitStep(r, k, Shr(v, k) % 2 == 1);
    if k > 0 {
      AddRemoved(v / 2, k - 1);
      ShrHalf(v, k);
      assert r / 2 == RemoveBit(v / 2, k - 1) && r % 2 == v % 2;
    } else {
      ShrNone(v);
    }
  }

  lemma {:induction false} ShrHigh(v: nat, r: nat, k: nat)
    requires k < r
    ensures Shr(v + Pow2(r), k) == Shr(v, k) + Pow2(r - k)
  {
    if k > 0 {
      ShrHigh(v, r, k - 1);
      PowStep(r - k + 1);
    }
  }

  lemma {:induction false} AddBitHigh(v: nat, k: nat, b: bool, r: nat)
    requires k <= r
    ensures AddBit(v + Pow2(r), k, b) == AddBit(v, k, b) + Pow2(r + 1)
  {
    hide Pow2, AddBit;
    PowStep(r + 1);
    AddBitStep(v, k, b);
    AddBitStep(v + Pow2(r), k, b);
    if k > 0 {
      PowStep(r);
      HalfSum(v, Pow2(r - 1));
      AddBitHigh(v / 2, k - 1, b, r - 1);
    }
  }

  /** Below `s`, the bit of its row is its parity. */
  lemma {:induction false} BitBelow(g: Layout, rows: nat, s: nat, p: nat)
    requires g.m == Pow2(rows) && g.WellShaped() && s in g.nodes && p in g.nodes && AtOrAbove(g, s, p)
    ensures Valid(rows, s) && Valid(rows, p) && Row(rows, p) <= Row(rows, s)
    ensures Shr(p, Row(rows, s) - Row(rows, p)) % 2 == s % 2
    decreases 2 * g.m - p
  {
    hide Row, Pow2, Layout.WellShaped, Above;
    g.NodeBound(s);
    g.NodeBound(p);
    if p != s {
      AboveParent(g, s, p);
      RootBelow(g, s, p);
      NotLast(g, p);
      BitBelow(g, rows, s, g.Up(p));
      RowStep(rows, p);
      var k := Row(rows, s) - Row(rows, p);
      RowBounds(rows, s);
      ShrHalf(p, k);
      ShrHigh(p / 2, rows, k - 1);
      PowStep(rows - k + 1);
    }
  }

  lemma NotLast(g: Layout, p: nat)
    requires g.WellShaped() && g.Up(p) in g.nodes
    ensures p < 2 * g.m - 2
  {
  }

  /** Moving up and back. */
  lemma {:induction false} PrevOfNext(g: Layout, rows: nat, d: nat, p: nat)
    requires g.m == Pow2(rows) && g.WellShaped() && d in g.nodes && !g.IsRoot(d)
    requires p in g.nodes && AtOrAbove(g, Sibling(d), p)
    ensures Valid(rows, d) && Valid(rows, p)
    ensures var next := CalcNextPosition(p, d, rows);
            && next.Some? && Valid(rows, next.value) && next.value >= Pow2(rows)
            && Row(rows, next.value) == Row(rows, p) + 1 <= Row(rows, d) + 1
            && CalcPrevPosition(next.value, d, rows) == p
  {
    hide Row, Pow2, Layout.WellShaped, Above, Shift, RemoveBit, AddBit;
    g.NonRootFacts(d);
    g.NodeBound(d);
    g.NodeBound(p);
    RowSibling(rows, d);
    NextIsShift(g, rows, d, p);
    ShiftRow(g, rows, d, p);
    BitBelow(g, rows, Sibling(d), p);
    AddRemoved(p, Row(rows, d) - Row(rows, p));
  }

  /** Moving up goes up one row. */
  lemma {:induction false} ShiftRow(g: Layout, rows: nat, d: nat, p: nat)
    requires g.m == Pow2(rows) && g.WellShaped() && d in g.nodes && !g.IsRoot(d)
    requires p in g.nodes && AtOrAbove(g, Sibling(d), p)
    ensures Valid(rows, p) && Valid(rows, Shift(g, d, p)) && Shift(g, d, p) >= g.m
    ensures Row(rows, Shift(g, d, p)) == Row(rows, p) + 1
    decreases 2 * g.m - p
  {
    hide Row, Pow2, Layout.WellShaped, Above, Shift, Offset, Child, Layout.IsRoot;
    g.NonRootFacts(d);
    g.NodeBound(d);
    g.NodeBound(p);
    ShiftFacts(g, d, p);
    g.NodeBound(Shift(g, d, p));
    RowStep(rows, d);
    if p != Sibling(d) {
      NotRootUp(g, p);
      NotLast(g, p);
      ShiftRow(g, rows, d, g.Up(p));
      RowStep(rows, p);
      var q := Shift(g, d, g.Up(p));
      ChildRow(g, rows, q, p % 2);
      HigherThanLeaves(g, rows, Shift(g, d, p));
    }
  }

  lemma NotRootUp(g: Layout, p: nat)
    requires p in g.nodes && !g.IsRoot(p)
    ensures g.Up(p) in g.nodes
  {
  }

  lemma {:induction false} ChildRow(g: Layout, rows: nat, q: nat, bit: nat)
    requires g.m == Pow2(rows) && g.m <= q && Valid(rows, q) && bit < 2
    ensures Valid(rows, Child(g, q, bit)) && Row(rows, Child(g, q, bit)) == Row(rows, q) - 1
  {
    RowChildren(rows, q);
  }

  lemma HigherThanLeaves(g: Layout, rows: nat, q: nat)
    requires g.m == Pow2(rows) && Valid(rows, q) && Row(rows, q) > 0
    ensures q >= g.m
  {
  }

  /** Every position above the leaves and at or below the parent of `d` was moved there from one
      at or below the sibling of `d`; children from children. */
  lemma {:induction false} NextOfPrev(g: Layout, rows: nat, d: nat, q: nat)
    requires g.m == Pow2(rows) && g.WellShaped() && d in g.nodes && !g.IsRoot(d)
    requires q in g.nodes && q >= g.m && AtOrAbove(g, g.Up(d), q)
    ensures Valid(rows, d) && Valid(rows, q) && Row(rows, q) <= Row(rows, d) + 1
    ensures var prev := CalcPrevPosition(q, d, rows);
            && prev in g.nodes && AtOrAbove(g, Sibling(d), prev) && Valid(rows, prev)
            && Row(rows, prev) == Row(rows, q) - 1
            && CalcNextPosition(prev, d, rows) == Some(q)
            && (q == g.Up(d) ==> prev == Sibling(d))
            && (q != g.Up(d) ==>
                  g.Up(q) >= g.m && Valid(rows, g.Up(q)) && Row(rows, g.Up(q)) <= Row(rows, d) + 1 &&
                  prev == Child(g, CalcPrevPosition(g.Up(q), d, rows), q % 2))
    decreases 2 * g.m - q
  {
    hide Row, Pow2, Layout.WellShaped, Above, RemoveBit, AddBit, Offset, Child, Layout.IsRoot;
    g.NonRootFacts(d);
    g.NodeBound(d);
    g.NodeBound(q);
    RowStep(rows, d);
    RowBounds(rows, g.Up(d));
    AboveLeaves(g, rows, q);
    var b := d % 2 == 0;
    if q == g.Up(d) {
      AddBitStep(q - g.m, 0, b);
      RemoveAdded(q - g.m, 0, b);
    } else {
      AboveParent(g, g.Up(d), q);
      RootBelow(g, g.Up(d), q);
      NotLast(g, q);
      NextOfPrev(g, rows, d, g.Up(q));
      RowStep(rows, q);
      PrevChild(g, rows, d, q);
      var prev := CalcPrevPosition(g.Up(q), d, rows);
      PrevBelow(g, rows, d, prev, q % 2);
      RemoveAdded(q - g.m, Row(rows, d) + 1 - Row(rows, q), b);
    }
  }

  lemma AboveLeaves(g: Layout, rows: nat, q: nat)
    requires g.m == Pow2(rows) && Valid(rows, q) && q >= g.m
    ensures Row(rows, q) >= 1
  {
  }

  lemma AddBitStep(v: nat, k: nat, b: bool)
    ensures AddBit(v, k, b) == if k == 0 then 2 * v + (if b then 1 else 0) else 2 * AddBit(v / 2, k - 1, b) + v % 2
  {
  }

  lemma {:induction false} PrevChild(g: Layout, rows: nat, d: nat, q: nat)
    requires g.m == Pow2(rows) && Valid(rows, d) && Valid(rows, q) && g.m <= q < 2 * g.m - 2
    requires Valid(rows, g.Up(q)) && Row(rows, g.Up(q)) == Row(rows, q) + 1 <= Row(rows, d) + 1 <= rows
    ensures CalcPrevPosition(g.Up(q), d, rows) >= g.m
    ensures CalcPrevPosition(q, d, rows) == Child(g, CalcPrevPosition(g.Up(q), d, rows), q % 2)
  {
    hide Row, Pow2, AddBit;
    var k, b := Row(rows, d) + 1 - Row(rows, q), d % 2 == 0;
    AboveLeaves(g, rows, q);
    PowStep(rows);
    AddBitStep(q - g.m, k, b);
    AddBitHigh((q - g.m) / 2, k - 1, b, rows - 1);
    assert q / 2 == (q - g.m) / 2 + Pow2(rows - 1);
  }

  lemma {:induction false} PrevBelow(g: Layout, rows: nat, d: nat, prev: nat, bit: nat)
    requires g.m == Pow2(rows) && g.WellShaped() && d in g.nodes && prev in g.nodes && prev >= g.m && bit < 2
    requires AtOrAbove(g, Sibling(d), prev)
    ensures Child(g, prev, bit) in g.nodes && AtOrAbove(g, Sibling(d), Child(g, prev, bit))
    ensures Valid(rows, prev) && Valid(rows, Child(g, prev, bit)) &&
            Row(rows, Child(g, prev, bit)) == Row(rows, prev) - 1
  {
    hide Row, Above, Layout.WellShaped;
    g.ChildFacts(prev);
    g.NodeBound(prev);
    ChildRow(g, rows, prev, bit);
    AboveTrans(g, Sibling(d), Child(g, prev, bit));
  }
}
