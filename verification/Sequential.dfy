/** Moving positions up one deletion at a time. */
module Sequential {
  // When `d` is deleted, the subtree at its sibling moves up one row. Doing this for deletions in
  // ascending order, none of them above or beside another, takes every position that stays to where the
  // simultaneous deletion puts it.

  import opened Positions
  import opened Layouts
  import opened Entries
  import opened Deletion

  /** `a` is above `p`, going by positions alone. */
  ghost predicate Above(g: Layout, a: nat, p: nat)
    decreases 2 * g.m - p
  {
    p < 2 * g.m - 1 && g.Up(p) <= a && (g.Up(p) == a || Above(g, a, g.Up(p)))
  }

  ghost predicate AtOrAbove(g: Layout, a: nat, p: nat) {
    a == p || Above(g, a, p)
  }

  /** Where a position below the parent of `d` moves when `d` is deleted. */
  ghost function Shift(g: Layout, d: nat, p: nat): nat
    decreases 2 * g.m - p
  {
    if p >= 2 * g.m - 1 || g.Up(p) >= g.Up(d) then g.Up(d)
    else Child(g, Shift(g, d, g.Up(p)), p % 2)
  }

  /** Where a position moves when `d` is deleted. */
  ghost function Move(g: Layout, d: nat, p: nat): nat {
    if !g.IsRoot(d) && Above(g, g.Up(d), p) then Shift(g, d, p) else p
  }

  ghost function MoveAll(g: Layout, ds: seq<nat>, p: nat): nat {
    if |ds| == 0 then p else MoveAll(g, ds[1..], Move(g, ds[0], p))
  }

  /** Where a position moves when all of `ds` is deleted and nothing above or beside
      another is among them. */
  ghost function Lifted(g: Layout, ds: set<nat>, p: nat): nat
    decreases 2 * g.m - p
  {
    if p !in g.nodes || p >= 2 * g.m - 1 || g.IsRoot(p) then p
    else if Sibling(p) in ds then Lifted(g, ds, g.Up(p))
    else Child(g, Lifted(g, ds, g.Up(p)), p % 2)
  }

  /** Deletions that can be done one at a time, in ascending order. */
  ghost predicate Separate(g: Layout, ds: seq<nat>) {
    g.WellShaped() && Ascending(ds) &&
    (forall i :: 0 <= i < |ds| ==> ds[i] in g.nodes && Sibling(ds[i]) !in ds) &&
    (forall i, j :: 0 <= i < |ds| && 0 <= j < |ds| ==> !Above(g, ds[i], ds[j]))
  }

  /** Nothing at or above `p` is deleted. */
  ghost predicate Clear(g: Layout, ds: seq<nat>, p: nat) {
    p in g.nodes && forall i :: 0 <= i < |ds| ==> !AtOrAbove(g, ds[i], p)
  }

  lemma {:induction false} AboveBounds(g: Layout, a: nat, p: nat)
    requires Above(g, a, p)
    ensures p < a && g.m <= a
    decreases 2 * g.m - p
  {
    if g.Up(p) != a {
      AboveBounds(g, a, g.Up(p));
    }
  }

  lemma AboveParent(g: Layout, a: nat, p: nat)
    requires Above(g, a, p)
    ensures p < 2 * g.m - 1 && g.Up(p) <= a && AtOrAbove(g, a, g.Up(p))
  {
  }

  /** What is below a node is at or below one of its children. */
  lemma {:induction false} BelowChild(g: Layout, a: nat, p: nat)
    requires g.WellShaped() && a in g.nodes && Above(g, a, p)
    ensures a >= g.m && (AtOrAbove(g, g.Left(a), p) || AtOrAbove(g, g.Right(a), p))
    decreases 2 * g.m - p
  {
    AboveBounds(g, a, p);
    g.ChildFacts(a);
    if g.Up(p) != a {
      BelowChild(g, a, g.Up(p));
      AboveTrans(g, if AtOrAbove(g, g.Left(a), g.Up(p)) then g.Left(a) else g.Right(a), p);
    }
  }

  /** Above the parent is above the child. */
  lemma {:induction false} AboveTrans(g: Layout, a: nat, p: nat)
    requires p < 2 * g.m - 1 && AtOrAbove(g, a, g.Up(p))
    ensures Above(g, a, p)
  {
    if g.Up(p) != a {
      AboveBounds(g, a, g.Up(p));
    }
  }

  /** A deletion elsewhere does not change where `p` goes. */
  lemma {:induction false} LiftedElsewhere(g: Layout, d: nat, ds: set<nat>, p: nat)
    requires g.WellShaped() && p in g.nodes && d in g.nodes && !g.IsRoot(d)
    requires !AtOrAbove(g, Sibling(d), p)
    ensures Lifted(g, ds + {d}, p) == Lifted(g, ds, p)
    decreases 2 * g.m - p
  {
    if !g.IsRoot(p) {
      g.NonRootFacts(p);
      g.NonRootFacts(d);
      if AtOrAbove(g, Sibling(d), g.Up(p)) {
        AboveTrans(g, Sibling(d), p);
      }
      LiftedElsewhere(g, d, ds, g.Up(p));
      assert Sibling(p) == d ==> p == Sibling(d);
    }
  }

  /** The subtree at the sibling of `d` moves to nodes at and below the parent of `d`;
      parents stay parents. */
  lemma {:induction false} ShiftFacts(g: Layout, d: nat, p: nat)
    requires g.WellShaped() && d in g.nodes && !g.IsRoot(d)
    requires p in g.nodes && AtOrAbove(g, Sibling(d), p)
    ensures !g.IsRoot(p) && Above(g, g.Up(d), p)
    ensures Shift(g, d, p) in g.nodes && p < Shift(g, d, p) <= g.Up(d)
    ensures p == Sibling(d) ==> Shift(g, d, p) == g.Up(d)
    ensures p != Sibling(d) ==>
              var q := Shift(g, d, g.Up(p));
              && g.Up(p) in g.nodes && AtOrAbove(g, Sibling(d), g.Up(p))
              && g.m <= q < 2 * g.m - 1 && Shift(g, d, p) == Child(g, q, p % 2)
              && g.Up(Shift(g, d, p)) == q && !g.IsRoot(Shift(g, d, p))
    decreases 2 * g.m - p
  {
    g.NonRootFacts(d);
    if p != Sibling(d) {
      AboveBounds(g, Sibling(d), p);
      RootBelow(g, Sibling(d), p);
      ShiftStep(g, d, p);
    }
  }

  lemma {:induction false} ShiftStep(g: Layout, d: nat, p: nat)
    requires g.WellShaped() && d in g.nodes && !g.IsRoot(d)
    requires p in g.nodes && Above(g, Sibling(d), p) && g.Up(p) in g.nodes
    ensures Above(g, g.Up(d), p)
    ensures Shift(g, d, p) in g.nodes && p < Shift(g, d, p) <= g.Up(d)
    ensures var q := Shift(g, d, g.Up(p));
            && AtOrAbove(g, Sibling(d), g.Up(p))
            && g.m <= q < 2 * g.m - 1 && Shift(g, d, p) == Child(g, q, p % 2)
            && g.Up(Shift(g, d, p)) == q && !g.IsRoot(Shift(g, d, p))
    decreases 2 * g.m - p, 0
  {
    hide Above, Layout.WellShaped, Layout.IsRoot, Shift;
    var q := g.Up(p);
    NotRootBelow(g, p);
    g.NonRootFacts(p);
    g.NonRootFacts(d);
    AboveParent(g, Sibling(d), p);
    AboveBounds(g, Sibling(d), p);
    ShiftFacts(g, d, q);
    AboveTrans(g, g.Up(d), p);
    g.ChildFacts(Shift(g, d, q));
    ShiftUnfold(g, d, p);
  }

  /** A root is not below a node. */
  lemma NotRootBelow(g: Layout, p: nat)
    requires g.Up(p) in g.nodes
    ensures !g.IsRoot(p)
  {
  }

  lemma ShiftUnfold(g: Layout, d: nat, p: nat)
    requires p < 2 * g.m - 1 && g.Up(p) < g.Up(d)
    ensures Shift(g, d, p) == Child(g, Shift(g, d, g.Up(p)), p % 2)
  {
  }

  lemma {:induction false} RootBelow(g: Layout, a: nat, p: nat)
    requires g.WellShaped() && a in g.nodes && p in g.nodes && Above(g, a, p)
    ensures g.Up(p) in g.nodes
    decreases a
  {
    AboveBounds(g, a, p);
    BelowChild(g, a, p);
    g.ChildFacts(a);
    var c := if AtOrAbove(g, g.Left(a), p) then g.Left(a) else g.Right(a);
    if c != p {
      RootBelow(g, c, p);
    }
  }

  /** What is below the parent of `d`, and is not one of its children, is before `d`. */
  lemma {:induction false} BeforeChildren(g: Layout, d: nat, q: nat, bit: nat)
    requires g.WellShaped() && d in g.nodes && !g.IsRoot(d) && bit < 2
    requires g.m <= q <= g.Up(d)
    ensures var x := Sibling(Child(g, q, bit)); x < d || x == d || x == Sibling(d)
    ensures q < g.Up(d) ==> Sibling(Child(g, q, bit)) < d
  {
    g.NonRootFacts(d);
  }

  /** Deleting `d` first moves a position at or below its sibling to where the rest of
      the deletions take it from there. */
  lemma {:induction false} LiftedShift(g: Layout, d: nat, ds: set<nat>, p: nat)
    requires g.WellShaped() && d in g.nodes && !g.IsRoot(d)
    requires Sibling(d) !in ds && forall e :: e in ds ==> e > d
    requires p in g.nodes && AtOrAbove(g, Sibling(d), p)
    ensures Lifted(g, ds + {d}, p) == Lifted(g, ds, Shift(g, d, p))
    decreases 2 * g.m - p
  {
    ShiftFacts(g, d, p);
    g.NonRootFacts(p);
    if p == Sibling(d) {
      g.NonRootFacts(d);
      assert !AtOrAbove(g, Sibling(d), g.Up(d)) by {
        if Above(g, Sibling(d), g.Up(d)) { AboveBounds(g, Sibling(d), g.Up(d)); }
      }
      LiftedElsewhere(g, d, ds, g.Up(d));
    } else {
      LiftedShiftBelow(g, d, ds, p);
    }
  }

  lemma {:induction false} LiftedShiftBelow(g: Layout, d: nat, ds: set<nat>, p: nat)
    requires g.WellShaped() && d in g.nodes && !g.IsRoot(d)
    requires Sibling(d) !in ds && forall e :: e in ds ==> e > d
    requires p in g.nodes && Above(g, Sibling(d), p) && p != Sibling(d)
    ensures Lifted(g, ds + {d}, p) == Lifted(g, ds, Shift(g, d, p))
    decreases 2 * g.m - p, 0
  {
    hide Above, Shift, Child, Layout.WellShaped, Layout.IsRoot, Lifted;
    AboveBounds(g, Sibling(d), p);
    ShiftFacts(g, d, p);
    var q, z := g.Up(p), Shift(g, d, p);
    LiftedUnfold(g, ds + {d}, p);
    LiftedUnfold(g, ds, z);
    g.NonRootFacts(p);
    g.NonRootFacts(d);
    LiftedShift(g, d, ds, q);
    ShiftFacts(g, d, q);
    ChildOf(g, p);
    BeforeChildren(g, d, q, p % 2);
    BeforeChildren(g, d, Shift(g, d, q), p % 2);
    ChildParity(g, Shift(g, d, q), p % 2);
  }

  lemma LiftedUnfold(g: Layout, ds: set<nat>, p: nat)
    requires g.WellShaped() && p in g.nodes && !g.IsRoot(p)
    ensures Lifted(g, ds, p) == if Sibling(p) in ds then Lifted(g, ds, g.Up(p))
            else Child(g, Lifted(g, ds, g.Up(p)), p % 2)
  {
    g.NodeBound(p);
  }

  lemma ChildOf(g: Layout, p: nat)
    ensures Child(g, g.Up(p), p % 2) == p
  {
  }

  lemma ChildParity(g: Layout, p: nat, bit: nat)
    requires p >= g.m && bit < 2
    ensures Child(g, p, bit) % 2 == bit && g.Up(Child(g, p, bit)) == p
  {
  }

  /** What is at or above a position that moved is at or above the parent of `d`, or is
      not after `d`, or is its sibling. */
  lemma {:induction false} AboveShifted(g: Layout, d: nat, p: nat, e: nat)
    requires g.WellShaped() && d in g.nodes && !g.IsRoot(d)
    requires p in g.nodes && AtOrAbove(g, Sibling(d), p)
    requires AtOrAbove(g, e, Shift(g, d, p))
    ensures AtOrAbove(g, e, g.Up(d)) || e <= d || e == Sibling(d)
    decreases 2 * g.m - p
  {
    hide Shift, Child, Above;
    ShiftFacts(g, d, p);
    if p != Sibling(d) {
      var q, z := Shift(g, d, g.Up(p)), Shift(g, d, p);
      g.NonRootFacts(p);
      g.NonRootFacts(d);
      ShiftFacts(g, d, g.Up(p));
      ChildParity(g, q, p % 2);
      if e == z {
        BeforeChildren(g, d, q, 1 - p % 2);
        ChildSibling(g, q, p % 2);
      } else {
        AboveParent(g, e, z);
        AboveShifted(g, d, g.Up(p), e);
      }
    }
  }

  lemma ChildSibling(g: Layout, p: nat, bit: nat)
    requires bit < 2 && p >= g.m
    ensures Sibling(Child(g, p, 1 - bit)) == Child(g, p, bit)
  {
  }

  /** A root among the deletions moves nothing else. */
  lemma {:induction false} LiftedRoot(g: Layout, d: nat, ds: set<nat>, p: nat)
    requires g.WellShaped() && p in g.nodes && g.IsRoot(d)
    ensures Lifted(g, ds + {d}, p) == Lifted(g, ds, p)
    decreases 2 * g.m - p
  {
    if !g.IsRoot(p) {
      g.NonRootFacts(p);
      LiftedRoot(g, d, ds, g.Up(p));
    }
  }

  /** One deletion, and then the rest. */
  lemma {:induction false} LiftedStep(g: Layout, d: nat, rest: seq<nat>, p: nat)
    requires Separate(g, [d] + rest) && Clear(g, [d] + rest, p)
    ensures Lifted(g, Elems(rest) + {d}, p) == Lifted(g, Elems(rest), Move(g, d, p))
    ensures Clear(g, rest, Move(g, d, p))
  {
    hide Above, Shift, Lifted, Layout.WellShaped;
    var ds := [d] + rest;
    SeparateHead(g, d, rest, p);
    if g.IsRoot(d) {
      LiftedRoot(g, d, Elems(rest), p);
    } else {
      g.NonRootFacts(d);
      if Above(g, g.Up(d), p) {
        BelowChild(g, g.Up(d), p);
        LiftedShift(g, d, Elems(rest), p);
        ShiftFacts(g, d, p);
        ClearShifted(g, d, rest, p);
      } else {
        assert !AtOrAbove(g, Sibling(d), p) by {
          if AtOrAbove(g, Sibling(d), p) { ShiftFacts(g, d, p); }
        }
        LiftedElsewhere(g, d, Elems(rest), p);
      }
    }
  }

  lemma {:induction false} SeparateHead(g: Layout, d: nat, rest: seq<nat>, p: nat)
    requires Separate(g, [d] + rest) && Clear(g, [d] + rest, p)
    ensures g.WellShaped() && d in g.nodes && p in g.nodes && !AtOrAbove(g, d, p)
    ensures Sibling(d) !in rest && Clear(g, rest, p)
    ensures forall e :: e in rest ==> e > d && !Above(g, e, d)
  {
    hide Above, Layout.WellShaped;
    var ds := [d] + rest;
    assert ds[0] == d;
    assert forall i :: 0 <= i < |rest| ==> rest[i] == ds[i + 1];
    forall e | e in rest
      ensures e > d && !Above(g, e, d)
    {
      var i :| 0 <= i < |rest| && rest[i] == e;
      assert ds[i + 1] == e;
    }
    assert forall e :: e in rest ==> e in ds;
  }

  lemma {:induction false} ClearShifted(g: Layout, d: nat, rest: seq<nat>, p: nat)
    requires g.WellShaped() && d in g.nodes && !g.IsRoot(d)
    requires p in g.nodes && AtOrAbove(g, Sibling(d), p) && Sibling(d) !in rest
    requires forall e :: e in rest ==> e > d && !Above(g, e, d)
    ensures Clear(g, rest, Shift(g, d, p))
  {
    hide Above, Shift, Layout.WellShaped;
    ShiftFacts(g, d, p);
    g.NonRootFacts(d);
    forall i | 0 <= i < |rest|
      ensures !AtOrAbove(g, rest[i], Shift(g, d, p))
    {
      var e := rest[i];
      assert e in rest;
      if AtOrAbove(g, e, Shift(g, d, p)) {
        AboveShifted(g, d, p, e);
        AboveTrans(g, e, d);
      }
    }
  }

  lemma ClearNode(g: Layout, ds: seq<nat>, p: nat)
    requires Separate(g, ds) && Clear(g, ds, p)
    ensures g.WellShaped() && p in g.nodes
  {
  }

  /** Deleting one at a time, in ascending order, takes every position that stays to
      where the simultaneous deletion takes it. */
  lemma {:induction false} OneAtATime(g: Layout, ds: seq<nat>, p: nat)
    requires Separate(g, ds) && Clear(g, ds, p)
    ensures MoveAll(g, ds, p) == Lifted(g, Elems(ds), p)
  {
    hide Above, Lifted, Layout.WellShaped, Separate, Clear;
    if |ds| == 0 {
      assert Elems(ds) == {};
      ClearNode(g, ds, p);
      LiftedNone(g, p);
    } else {
      var rest := ds[1..];
      assert ds == [ds[0]] + rest;
      LiftedStep(g, ds[0], rest, p);
      SeparateRest(g, ds);
      OneAtATime(g, rest, Move(g, ds[0], p));
      assert Elems(ds) == Elems(rest) + {ds[0]};
    }
  }

  lemma SeparateRest(g: Layout, ds: seq<nat>)
    requires Separate(g, ds) && |ds| > 0
    ensures Separate(g, ds[1..])
  {
    assert forall i :: 0 <= i < |ds| - 1 ==> ds[1..][i] == ds[i + 1];
  }

  lemma {:induction false} LiftedNone(g: Layout, p: nat)
    requires g.WellShaped() && p in g.nodes
    ensures Lifted(g, {}, p) == p
    decreases 2 * g.m - p
  {
    if !g.IsRoot(p) {
      g.NonRootFacts(p);
      LiftedNone(g, g.Up(p));
      ChildOf(g, p);
    }
  }

  lemma UpAbove(g: Layout, d: nat)
    requires g.WellShaped() && d in g.nodes
    ensures Above(g, g.Up(d), d)
  {
  }
}
