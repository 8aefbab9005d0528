/** Adding leaves, seen as a deletion. */
module Additions {
  // Take the forest before an addition and put the new leaves beside it, with inner nodes above the old
  // roots and the new leaves wherever the larger forest has them. Old roots that are empty are now empty
  // places inside the larger trees; deleting them gives the forest after the addition. So what is known
  // of deletions says where everything moves when leaves are added over empty roots.

  import opened Hashes
  import opened Positions
  import opened Layouts
  import opened Forests
  import opened Deletion
  import opened Sequential
  import opened Slots
  import opened Uniqueness

  /** `o` is the layout of the slots before, and `g` of the slots after, some leaves
      were added, in the same number of rows. */
  ghost predicate Grows(o: Layout, g: Layout, before: seq<Hash>, adds: seq<Hash>) {
    && o.WellShaped() && g.WellShaped() && o.m == g.m && o.nodes <= g.nodes
    && (forall p: nat :: p < o.m ==> (p in o.nodes <==> p < |before|))
    && (forall p: nat :: p < g.m ==> (p in g.nodes <==> p < |before| + |adds|))
    && forall i :: 0 <= i < |adds| ==> adds[i] != Empty
  }

  /** An old root, or a node above old roots and new leaves. */
  ghost predicate Upper(o: Layout, g: Layout, p: nat) {
    p in g.nodes && (p !in o.nodes || o.IsRoot(p))
  }

  /** The tree over the old roots and the new leaves, with the empty roots in it. */
  ghost function Assembled(o: Layout, g: Layout, slots: seq<Hash>, p: nat): Tree
    decreases p
  {
    if o.IsRoot(p) || p < g.m || p >= 2 * g.m - 1 then Collapse(g, slots, p)
    else Node(Assembled(o, g, slots, g.Left(p)), Assembled(o, g, slots, g.Right(p)))
  }

  ghost function AssembledForest(o: Layout, g: Layout, slots: seq<Hash>): Forest {
    map p | p in g.nodes && g.IsRoot(p) :: Assembled(o, g, slots, p)
  }

  /** The empty roots that are written over. */
  ghost function WrittenOver(o: Layout, g: Layout, slots: seq<Hash>): set<nat> {
    set p | p in g.nodes && o.IsRoot(p) && !g.IsRoot(p) && Collapse(g, slots, p).Nil?
  }

  /** The neighbours of an upper node are upper nodes. */
  lemma {:induction false} UpperFacts(o: Layout, g: Layout, before: seq<Hash>, adds: seq<Hash>, p: nat)
    requires Grows(o, g, before, adds) && Upper(o, g, p)
    ensures p >= g.m && !o.IsRoot(p) ==> Upper(o, g, g.Left(p)) && Upper(o, g, g.Right(p)) && p !in o.nodes
    ensures !g.IsRoot(p) ==> Upper(o, g, g.Up(p)) && g.Up(p) !in o.nodes && g.m <= g.Up(p) < 2 * g.m - 1
  {
    if p >= g.m && !o.IsRoot(p) {
      g.ChildFacts(p);
      var l, r := g.Left(p), g.Right(p);
      assert o.Up(l) == p && o.Up(r) == p;
    }
    if !g.IsRoot(p) {
      g.NonRootFacts(p);
      if g.Up(p) in o.nodes {
        o.ChildFacts(g.Up(p));
      }
    }
  }

  lemma {:induction false} CollapsePrefix(o: Layout, g: Layout, before: seq<Hash>, adds: seq<Hash>, p: nat)
    requires Grows(o, g, before, adds) && p in o.nodes
    ensures Collapse(g, before + adds, p) == Collapse(o, before, p)
    decreases p
  {
    if p >= o.m {
      o.ChildFacts(p);
      CollapsePrefix(o, g, before, adds, o.Left(p));
      CollapsePrefix(o, g, before, adds, o.Right(p));
    }
  }

  /** Below and at the old roots the forest is as it was. */
  lemma {:induction false} AtOld(o: Layout, g: Layout, before: seq<Hash>, adds: seq<Hash>, p: nat)
    requires Grows(o, g, before, adds) && p in o.nodes
    ensures At(g, AssembledForest(o, g, before + adds), p) == At(o, ForestOf(o, before), p)
    decreases 2 * g.m - p
  {
    var v := AssembledForest(o, g, before + adds);
    if o.IsRoot(p) {
      CollapsePrefix(o, g, before, adds, p);
      AtUpper(o, g, before, adds, p);
    } else {
      o.NonRootFacts(p);
      AtOld(o, g, before, adds, o.Up(p));
    }
  }

  lemma {:induction false} AtUpper(o: Layout, g: Layout, before: seq<Hash>, adds: seq<Hash>, p: nat)
    requires Grows(o, g, before, adds) && Upper(o, g, p)
    ensures At(g, AssembledForest(o, g, before + adds), p) == Assembled(o, g, before + adds, p)
    decreases 2 * g.m - p
  {
    g.NodeBound(p);
    if !g.IsRoot(p) {
      UpperFacts(o, g, before, adds, p);
      g.NonRootFacts(p);
      AtUpper(o, g, before, adds, g.Up(p));
    }
  }

  lemma {:induction false} AssembledFits(o: Layout, g: Layout, before: seq<Hash>, adds: seq<Hash>, p: nat)
    requires Grows(o, g, before, adds) && Upper(o, g, p)
    ensures Fits(g, p, Assembled(o, g, before + adds, p))
    decreases p
  {
    g.NodeBound(p);
    if o.IsRoot(p) || p < g.m {
      CollapseFits(g, before + adds, p);
    } else {
      UpperFacts(o, g, before, adds, p);
      g.ChildFacts(p);
      AssembledFits(o, g, before, adds, g.Left(p));
      AssembledFits(o, g, before, adds, g.Right(p));
    }
  }

  /** The empty roots written over can be deleted from the assembled forest. */
  lemma {:induction false} AssembledDeletable(o: Layout, g: Layout, before: seq<Hash>, adds: seq<Hash>)
    requires Grows(o, g, before, adds)
    ensures Deletable(g, AssembledForest(o, g, before + adds), WrittenOver(o, g, before + adds))
  {
    var slots := before + adds;
    var v, d := AssembledForest(o, g, slots), WrittenOver(o, g, slots);
    forall p: nat | p in v
      ensures Fits(g, p, v[p])
    {
      RootUpper(o, g, before, adds, p);
      AssembledFits(o, g, before, adds, p);
    }
    forall x | x in d
      ensures Present(g, v, x) && !At(g, v, x).Node?
    {
      AtUpper(o, g, before, adds, x);
      UpperFacts(o, g, before, adds, x);
      AtUpper(o, g, before, adds, g.Up(x));
    }
    forall p: nat | Present(g, v, p) && !g.IsRoot(p) && At(g, v, p).Nil?
      ensures p in d
    {
      if Upper(o, g, p) {
        AtUpper(o, g, before, adds, p);
        UpperNil(o, g, before, adds, p);
      } else {
        OldSolid(o, g, before, adds, p);
      }
    }
  }

  lemma {:induction false} RootUpper(o: Layout, g: Layout, before: seq<Hash>, adds: seq<Hash>, p: nat)
    requires Grows(o, g, before, adds) && g.IsRoot(p)
    ensures Upper(o, g, p)
  {
    assert o.Up(p) == g.Up(p);
  }

  lemma {:induction false} UpperNil(o: Layout, g: Layout, before: seq<Hash>, adds: seq<Hash>, p: nat)
    requires Grows(o, g, before, adds) && Upper(o, g, p) && !g.IsRoot(p)
    requires Assembled(o, g, before + adds, p).Nil?
    ensures p in WrittenOver(o, g, before + adds)
  {
    g.NodeBound(p);
  }

  lemma {:induction false} OldSolid(o: Layout, g: Layout, before: seq<Hash>, adds: seq<Hash>, p: nat)
    requires Grows(o, g, before, adds) && p in o.nodes && !o.IsRoot(p)
    requires Present(g, AssembledForest(o, g, before + adds), p) && !g.IsRoot(p)
    ensures !At(g, AssembledForest(o, g, before + adds), p).Nil?
  {
    hide At, Layout.WellShaped, AssembledForest, ForestOf, Layout.IsRoot;
    var f := ForestOf(o, before);
    GrowsShaped(o, g, before, adds);
    o.NonRootFacts(p);
    AtOld(o, g, before, adds, p);
    AtOld(o, g, before, adds, o.Up(p));
    ForestOfCompact(o, before);
    assert Present(o, f, p);
  }

  lemma GrowsShaped(o: Layout, g: Layout, before: seq<Hash>, adds: seq<Hash>)
    requires Grows(o, g, before, adds)
    ensures o.WellShaped() && g.WellShaped() && o.m == g.m
    ensures forall p: nat :: o.Up(p) == g.Up(p)
  {
  }

  /** Nothing is deleted from a tree that has no deleted position at or below it. */
  lemma {:induction false} RemApart(g: Layout, d: set<nat>, p: nat, t: Tree)
    requires g.WellShaped() && p in g.nodes && FitsBelow(g, p, t) && Solid(t)
    requires forall x :: x in d ==> !AtOrAbove(g, p, x)
    ensures Rem(g, d, p, t) == t
    decreases t
  {
    assert AtOrAbove(g, p, p);
    if t.Node? {
      g.ChildFacts(p);
      forall x | x in d
        ensures !AtOrAbove(g, g.Left(p), x) && !AtOrAbove(g, g.Right(p), x)
      {
        if AtOrAbove(g, g.Left(p), x) { AboveOf(g, p, g.Left(p), x); }
        if AtOrAbove(g, g.Right(p), x) { AboveOf(g, p, g.Right(p), x); }
      }
      RemApart(g, d, g.Left(p), t.left);
      RemApart(g, d, g.Right(p), t.right);
    }
  }

  lemma {:induction false} OldRootsApart(o: Layout, g: Layout, before: seq<Hash>, adds: seq<Hash>, r: nat, s: nat)
    requires Grows(o, g, before, adds) && o.IsRoot(r) && o.IsRoot(s) && r != s
    ensures !AtOrAbove(g, r, s)
  {
    RootsApart(o, r, s);
    if Above(g, r, s) { SameAbove(o, g, r, s); }
  }

  lemma {:induction false} SameAbove(o: Layout, g: Layout, a: nat, p: nat)
    requires o.m == g.m
    ensures Above(o, a, p) <==> Above(g, a, p)
    decreases 2 * g.m - p
  {
    if p < 2 * g.m - 1 {
      SameAbove(o, g, a, g.Up(p));
    }
  }

  /** What is left of an upper node is the tree of its slots. */
  lemma {:induction false} RemAssembled(o: Layout, g: Layout, before: seq<Hash>, adds: seq<Hash>, p: nat)
    requires Grows(o, g, before, adds) && Upper(o, g, p)
    ensures Rem(g, WrittenOver(o, g, before + adds), p, Assembled(o, g, before + adds, p)) ==
            Collapse(g, before + adds, p)
    decreases p
  {
    var slots := before + adds;
    var d := WrittenOver(o, g, slots);
    g.NodeBound(p);
    if p in d || (!o.IsRoot(p) && p < g.m) {
    } else if o.IsRoot(p) {
      CollapseFits(g, slots, p);
      forall x | x in d
        ensures !AtOrAbove(g, p, x)
      {
        OldRootsApart(o, g, before, adds, p, x);
      }
      RemApart(g, d, p, Collapse(g, slots, p));
    } else {
      UpperFacts(o, g, before, adds, p);
      g.ChildFacts(p);
      RemAssembled(o, g, before, adds, g.Left(p));
      RemAssembled(o, g, before, adds, g.Right(p));
    }
  }

  /** Deleting the empty roots written over gives the forest after the addition. */
  lemma {:induction false} AddedForest(o: Layout, g: Layout, before: seq<Hash>, adds: seq<Hash>)
    requires Grows(o, g, before, adds)
    ensures Deleted(g, AssembledForest(o, g, before + adds), WrittenOver(o, g, before + adds)) ==
            ForestOf(g, before + adds)
  {
    var slots := before + adds;
    var v, d := AssembledForest(o, g, slots), WrittenOver(o, g, slots);
    forall r | r in v
      ensures Deleted(g, v, d)[r] == Collapse(g, slots, r)
    {
      RootUpper(o, g, before, adds, r);
      RemAssembled(o, g, before, adds, r);
    }
  }
}
