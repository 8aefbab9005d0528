/** Two tops become one. */
module MapFuse {
  import opened Positions
  import opened Layouts
  import opened Forests
  import opened Deletion
  import opened Sequential
  import opened MapTheory
  import opened MapLift
  import opened MapForest
  import opened MapSteps

  /** Two siblings that are tops. */
  ghost predicate Pair(g: Layout, rows: nat, s: nat, trees: Forest) {
    GivesWay(g, rows, s) && TopsOk(g, trees) && s in trees && Sibling(s) in trees
  }

  /** Their parent as a top instead. */
  ghost function Fused(g: Layout, s: nat, trees: Forest, x: Tree): Forest {
    (trees - {s, Sibling(s)})[g.Up(s) := x]
  }

  /** No top is above a top: the parent of the pair is above all tops near it. */
  lemma {:induction false} PairFacts(g: Layout, rows: nat, s: nat, trees: Forest)
    requires Pair(g, rows, s, trees)
    ensures var u, c := g.Up(s), Sibling(s);
            && g.m <= u < 2 * g.m - 1 && u in g.nodes && g.Up(c) == u && Sibling(c) == s && s < u && c < u &&
               u !in trees && s != c
    ensures !Inside(g, trees, g.Up(s))
    ensures forall p: nat :: Above(g, p, g.Up(s)) ==> p !in trees && !Inside(g, trees, p)
  {
    hide Above, Layout.WellShaped, Layout.IsRoot, Inside, TopsOk;
    var u := g.Up(s);
    g.NonRootFacts(s);
    UpAbove(g, s);
    forall p: nat | AtOrAbove(g, p, u)
      ensures p !in trees && !Inside(g, trees, p)
    {
      AboveTrans(g, p, s);
      if Inside(g, trees, p) {
        var t := TopAbove(g, trees, p);
        InsideBound(g, trees, p);
        AboveFar(g, t, p, s);
        AboveBounds(g, p, s);
        if t != p { AboveBounds(g, t, p); }
        NoTopAbove(g, trees, t, s);
      }
      if p in trees { NoTopAbove(g, trees, p, s); }
    }
  }

  lemma {:induction false} InsideBelow(g: Layout, trees: Forest, t: nat, p: nat)
    requires t in trees && AtOrAbove(g, t, p)
    ensures Inside(g, trees, p)
    decreases 2 * g.m - p
  {
    if t != p { InsideBelow(g, trees, t, g.Up(p)); }
  }

  lemma {:induction false} FusedInside(g: Layout, rows: nat, s: nat, trees: Forest, x: Tree, p: nat)
    requires Pair(g, rows, s, trees)
    ensures Inside(g, Fused(g, s, trees, x), p) <==> Inside(g, trees, p) || p == g.Up(s)
    decreases 2 * g.m - p
  {
    hide Above, Layout.WellShaped, Layout.IsRoot, TopsOk, Pair;
    PairFacts(g, rows, s, trees);
    PairTops(g, rows, s, trees);
    if p != g.Up(s) && p != s && p != Sibling(s) && p !in trees && p < 2 * g.m - 1 {
      FusedInside(g, rows, s, trees, x, g.Up(p));
      if g.Up(p) == g.Up(s) { OnlyChildren(g, s, p); }
    }
  }

  lemma PairTops(g: Layout, rows: nat, s: nat, trees: Forest)
    requires Pair(g, rows, s, trees)
    ensures s in trees && Sibling(s) in trees && TopsOk(g, trees) && GivesWay(g, rows, s)
  {
    hide TopsOk, GivesWay;
  }

  lemma OnlyChildren(g: Layout, s: nat, p: nat)
    requires g.Up(p) == g.Up(s)
    ensures p == s || p == Sibling(s)
  {
  }

  lemma {:induction false} FusedSees(g: Layout, rows: nat, s: nat, trees: Forest, x: Tree, p: nat)
    requires Pair(g, rows, s, trees) && !Affected(g, s, p)
    ensures Sees(g, Fused(g, s, trees, x), p) == Sees(g, trees, p)
    decreases 2 * g.m - p
  {
    hide Above, Layout.WellShaped, Layout.IsRoot, TopsOk, Pair, GivesWay;
    PairTops(g, rows, s, trees);
    AffectedIff(g, rows, s, p);
    if p !in trees && p < 2 * g.m - 1 {
      Outside(g, rows, s, p);
      FusedSees(g, rows, s, trees, x, g.Up(p));
    }
  }

  /** Below the parent there are no tops but the two. */
  lemma {:induction false} NoOtherTops(g: Layout, rows: nat, s: nat, trees: Forest, p: nat)
    requires Pair(g, rows, s, trees) && Above(g, g.Up(s), p)
    ensures p == s || p == Sibling(s) || p !in trees
    ensures Inside(g, trees, p)
  {
    hide Above, Layout.WellShaped, Layout.IsRoot, TopsOk, Inside;
    AffectedIff(g, rows, s, p);
    if Above(g, g.Up(s), g.Up(s)) { AboveBounds(g, g.Up(s), g.Up(s)); }
    var t := if AtOrAbove(g, s, p) then s else Sibling(s);
    InsideBelow(g, trees, t, p);
    if t != p && p in trees { NoTopAbove(g, trees, t, p); }
  }

  lemma {:induction false} FusedTops(g: Layout, rows: nat, s: nat, trees: Forest, x: Tree)
    requires Pair(g, rows, s, trees) && Fits(g, g.Up(s), x) && Solid(x)
    ensures TopsOk(g, Fused(g, s, trees, x))
  {
    hide Above, Layout.WellShaped, Layout.IsRoot, Inside, GivesWay, Fits, Solid;
    PairFacts(g, rows, s, trees);
    var trees' := Fused(g, s, trees, x);
    forall t, r | t in trees' && r in trees'
      ensures !Above(g, t, r)
    {
      if Above(g, t, r) {
        if t == g.Up(s) {
          if r == t { AboveBounds(g, t, r); } else { NoOtherTops(g, rows, s, trees, r); }
        }
      }
    }
  }

  lemma {:induction false} FusedLifts(g: Layout, rows: nat, s: nat, trees: Forest, x: Tree)
    requires Pair(g, rows, s, trees) && Fits(g, g.Up(s), x) && Solid(x)
    ensures TopsLift(g, s, trees, Fused(g, s, trees, x))
  {
    hide Above, Layout.WellShaped, Layout.IsRoot, Inside, GivesWay, Fits, Solid, TopsOk;
    var trees', u := Fused(g, s, trees, x), g.Up(s);
    FusedTops(g, rows, s, trees, x);
    PairFacts(g, rows, s, trees);
    forall p: nat
      ensures Inside(g, trees', p) <==> Inside(g, trees, p) || p == u
    {
      FusedInside(g, rows, s, trees, x, p);
    }
    forall p: nat | Above(g, u, p)
      ensures p !in trees' && Inside(g, trees, p) && Inside(g, trees', p)
    {
      NoOtherTops(g, rows, s, trees, p);
      AboveBounds(g, u, p);
    }
    forall p: nat | !Affected(g, s, p)
      ensures p in trees' <==> p in trees
      ensures p != u
    {
      AffectedIff(g, rows, s, p);
    }
  }

  /** The sibling of an empty top moves up. */
  lemma {:induction false} FusedShift(g: Layout, rows: nat, s: nat, trees: Forest, p: nat)
    requires Pair(g, rows, s, trees) && AtOrAbove(g, Sibling(s), p)
    ensures Sees(g, Fused(g, s, trees, trees[Sibling(s)]), Shift(g, s, p)) == Sees(g, trees, p)
    decreases 2 * g.m - p
  {
    hide Above, Layout.WellShaped, Layout.IsRoot, Inside, Shift, TopsOk;
    var trees' := Fused(g, s, trees, trees[Sibling(s)]);
    MoveFacts(g, rows, s, p);
    if p != Sibling(s) {
      FusedShift(g, rows, s, trees, g.Up(p));
      ShiftParity(g, rows, s, p);
      NoOtherTops(g, rows, s, trees, p);
      AffectedIff(g, rows, s, p);
      var q := Shift(g, s, p);
      NoOtherTops(g, rows, s, trees, q);
      AboveBounds(g, g.Up(s), q);
      AboveParent(g, g.Up(s), q);
      SeesChild(g, trees, p);
      SeesChild(g, trees', q);
    }
  }

  lemma SeesChild(g: Layout, trees: Forest, p: nat)
    requires p !in trees && p < 2 * g.m - 1
    ensures Sees(g, trees, p) == match Sees(g, trees, g.Up(p)) case Node(l, r) => if p % 2 == 0 then l
            else r case _ => Nil
  {
  }

  /** An empty top gives way, as a move. */
  lemma {:induction false} EmptyLifts(g: Layout, rows: nat, s: nat, trees: Forest)
    requires Pair(g, rows, s, trees)
    ensures var trees' := Fused(g, s, trees, trees[Sibling(s)]);
            TopsLift(g, s, trees, trees') && TreesLift(g, s, trees, trees')
  {
    hide Above, Layout.WellShaped, Layout.IsRoot, Inside, Shift, Sees, Fused, TopsLift, GivesWay;
    var trees' := Fused(g, s, trees, trees[Sibling(s)]);
    PairFacts(g, rows, s, trees);
    FitsHigher(g, Sibling(s), g.Up(s), trees[Sibling(s)]);
    FusedLifts(g, rows, s, trees, trees[Sibling(s)]);
    forall p: nat | AtOrAbove(g, Sibling(s), p)
      ensures Sees(g, trees', Shift(g, s, p)) == Sees(g, trees, p)
    {
      FusedShift(g, rows, s, trees, p);
    }
    forall p: nat | !Affected(g, s, p)
      ensures Sees(g, trees', p) == Sees(g, trees, p)
    {
      FusedSees(g, rows, s, trees, trees[Sibling(s)], p);
    }
  }
}
