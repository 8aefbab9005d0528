/** One move at a time, and all at once. */
module Relocation {
  import opened Positions
  import opened Layouts
  import opened Entries
  import opened Forests
  import opened Honest
  import opened Deletion
  import opened OneToOne
  import opened Sequential
  import opened DeTwin

  /** `ds` are the largest positions at which everything in `d` is deleted, ascending. */
  ghost predicate Largest(g: Layout, d: set<nat>, ds: seq<nat>) {
    Separate(g, ds) && forall p: nat :: p in ds <==> Maximal(g, d, p)
  }

  /** Nothing at or above a position that stays is deleted. */
  lemma {:induction false} KeptClear(g: Layout, f: Forest, d: set<nat>, p: nat, e: nat)
    requires Deletable(g, f, d) && Kept(g, f, d, p) && e in g.nodes && AtOrAbove(g, e, p)
    ensures !Gone(g, d, e)
    decreases 2 * g.m - p
  {
    hide At, Gone, Rem, SolidExcept, Above, Layout.WellShaped;
    if e == p {
      RemainsRoot(g, f, d, p);
      GoneIff(g, f, d, p);
    } else {
      RootBelow(g, e, p);
      g.NodeBound(p);
      NotRootBelow(g, p);
      KeptUp(g, f, d, p);
      AboveParent(g, e, p);
      KeptClear(g, f, d, g.Up(p), e);
    }
  }

  lemma RemainsRoot(g: Layout, f: Forest, d: set<nat>, p: nat)
    requires !Remains(g, f, d, p).Nil?
    ensures !At(g, f, p).Nil?
  {
  }

  lemma {:induction false} LiftedIsNewPos(g: Layout, f: Forest, d: set<nat>, ds: seq<nat>, p: nat)
    requires Deletable(g, f, d) && Largest(g, d, ds) && Kept(g, f, d, p)
    ensures Lifted(g, Elems(ds), p) == NewPos(g, d, p)
    decreases 2 * g.m - p
  {
    if !g.IsRoot(p) {
      hide At, Gone, Rem, SolidExcept, Above;
      KeptUp(g, f, d, p);
      g.NonRootFacts(p);
      LiftedIsNewPos(g, f, d, ds, g.Up(p));
      RemainsRoot(g, f, d, g.Up(p));
      GoneIff(g, f, d, g.Up(p));
      assert Sibling(p) in Elems(ds) <==> Maximal(g, d, Sibling(p));
    }
  }

  /** Deleting the largest deleted positions one at a time, in ascending order, takes
      everything that stays to its new position. */
  lemma {:induction false} Relocated(g: Layout, f: Forest, d: set<nat>, ds: seq<nat>, p: nat)
    requires Deletable(g, f, d) && Largest(g, d, ds) && Kept(g, f, d, p)
    ensures Clear(g, ds, p)
    ensures MoveAll(g, ds, p) == NewPos(g, d, p)
  {
    hide At, Gone, Rem, SolidExcept, Above, Lifted, NewPos, MoveAll, Layout.WellShaped;
    forall i | 0 <= i < |ds|
      ensures !AtOrAbove(g, ds[i], p)
    {
      assert ds[i] in ds;
      if AtOrAbove(g, ds[i], p) {
        KeptClear(g, f, d, p, ds[i]);
      }
    }
    OneAtATime(g, ds, p);
    LiftedIsNewPos(g, f, d, ds, p);
  }
}
