/** Ancestors, and the next position after a deletion. */
module Navigation {
  import opened Options
  import opened Positions
  import opened Geometry
  import opened Layouts
  import opened Deletion
  import opened Sequential

  /** The ancestor `rise` rows up. */
  function ParentMany(p: nat, rise: nat, rows: nat): nat
    decreases rise
  {
    if rise == 0 then p else ParentMany(Parent(rows, p), rise - 1, rows)
  }

  predicate IsAncestor(higher: nat, lower: nat, rows: nat)
    requires Valid(rows, lower)
  {
    higher != lower && Valid(rows, higher) && Row(rows, lower) <= Row(rows, higher) &&
    ParentMany(lower, Row(rows, higher) - Row(rows, lower), rows) == higher
  }

  /** `val` without its bit number `bit`. */
  function RemoveBit(val: nat, bit: nat): nat {
    if bit == 0 then val / 2 else 2 * RemoveBit(val / 2, bit - 1) + val % 2
  }

  /** `val` with a bit inserted as bit number `place`. */
  function AddBit(val: nat, place: nat, bit: bool): nat {
    if place == 0 then 2 * val + (if bit then 1 else 0)
    else 2 * AddBit(val / 2, place - 1, bit) + val % 2
  }

  /** Where a position below the parent of `del` moves when `del` is deleted. */
  function CalcNextPosition(p: nat, del: nat, rows: nat): Option<nat>
    requires Valid(rows, p) && Valid(rows, del)
  {
    if Row(rows, del) < Row(rows, p) then None
    else Some(Pow2(rows) + RemoveBit(p, Row(rows, del) - Row(rows, p)))
  }

  /** Where a position was before `del` was deleted. */
  function CalcPrevPosition(p: nat, del: nat, rows: nat): nat
    requires Valid(rows, p) && Valid(rows, del) && p >= Pow2(rows) && Row(rows, p) <= Row(rows, del) + 1
  {
    AddBit(p - Pow2(rows), Row(rows, del) + 1 - Row(rows, p), del % 2 == 0)
  }

  /** Rising by the difference of the rows finds what is above. */
  lemma {:induction false} AncestorAbove(g: Layout, rows: nat, a: nat, p: nat)
    requires g.m == Pow2(rows) && Valid(rows, a) && Valid(rows, p)
    ensures IsAncestor(a, p, rows) <==> Above(g, a, p)
    decreases 2 * g.m - p
  {
    if p == 2 * g.m - 2 {
      RowMonotone(rows, a, p);
    } else {
      var q := Parent(rows, p);
      RowStep(rows, p);
      AncestorAbove(g, rows, a, q);
      if Above(g, a, p) {
        AboveBounds(g, a, p);
      }
      if IsAncestor(a, p, rows) && Row(rows, a) > Row(rows, p) {
        RowBounds(rows, a);
        RiseUp(rows, q, Row(rows, a) - Row(rows, q));
      }
    }
  }

  lemma {:induction false} RiseUp(rows: nat, p: nat, rise: nat)
    requires Valid(rows, p) && Row(rows, p) + rise <= rows
    ensures Valid(rows, ParentMany(p, rise, rows)) && ParentMany(p, rise, rows) >= p
    decreases rise
  {
    if rise > 0 {
      if p == 2 * Pow2(rows) - 2 {
        RowUnique(rows, p, rows);
      }
      RowStep(rows, p);
      RiseUp(rows, Parent(rows, p), rise - 1);
    }
  }

  lemma {:induction false} RemoveBitHigh(v: nat, bit: nat, r: nat)
    requires bit < r
    ensures RemoveBit(v + Pow2(r), bit) == RemoveBit(v, bit) + Pow2(r - 1)
  {
    hide Pow2, RemoveBit;
    PowStep(r);
    HalfSum(v, Pow2(r - 1));
    RemoveBitStep(v, bit);
    RemoveBitStep(v + Pow2(r), bit);
    if bit > 0 {
      RemoveBitHigh(v / 2, bit - 1, r - 1);
      PowStep(r - 1);
    }
  }

  lemma HalfSum(v: nat, m: nat)
    ensures (v + 2 * m) / 2 == v / 2 + m && (v + 2 * m) % 2 == v % 2
  {
  }

  lemma RemoveBitStep(v: nat, bit: nat)
    ensures RemoveBit(v, bit) == if bit == 0 then v / 2 else 2 * RemoveBit(v / 2, bit - 1) + v % 2
  {
  }

  /** Removing the bit of the deleted row from a position below the sibling of `d` is
      moving it up. */
  lemma {:induction false} NextIsShift(g: Layout, rows: nat, d: nat, p: nat)
    requires g.m == Pow2(rows) && g.WellShaped() && d in g.nodes && !g.IsRoot(d)
    requires p in g.nodes && AtOrAbove(g, Sibling(d), p)
    ensures Valid(rows, d) && Valid(rows, p) && Row(rows, p) <= Row(rows, d) < rows
    ensures CalcNextPosition(p, d, rows) == Some(Shift(g, d, p))
    decreases 2 * g.m - p
  {
    hide Row, Above, Shift, Layout.WellShaped, Pow2, RemoveBit, Child;
    g.NonRootFacts(d);
    g.NodeBound(d);
    g.NodeBound(p);
    RowSibling(rows, d);
    ShiftFacts(g, d, p);
    if p == Sibling(d) {
      RemoveBitStep(p, 0);
    } else {
      var q := g.Up(p);
      NextIsShift(g, rows, d, q);
      g.NonRootFacts(p);
      RowStep(rows, p);
      var k := Row(rows, d) - Row(rows, p);
      RemoveBitHigh(p / 2, k - 1, rows);
      assert q == p / 2 + Pow2(rows);
      ChildNext(g, rows, p, k, Shift(g, d, q));
    }
  }

  lemma ChildNext(g: Layout, rows: nat, p: nat, k: nat, q: nat)
    requires g.m == Pow2(rows) && k > 0 && rows > 0
    requires q == Pow2(rows) + RemoveBit(p / 2, k - 1) + Pow2(rows - 1)
    ensures Child(g, q, p % 2) == Pow2(rows) + RemoveBit(p, k)
  {
  }
}
