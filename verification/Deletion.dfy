/** What a deletion leaves, and where it moves. */
module Deletion {
  // When everything at a position is deleted, what is left at its sibling takes the place of their
  // parent. So what is left at a position moves up by one row for each of its ancestors, itself
  // included, whose sibling is gone.

  import opened Positions
  import opened Layouts
  import opened Forests
  import opened Calculation
  import opened Honest

  /** What is left of the tree at `p` when the positions in `d` are deleted. */
  ghost function Rem(g: Layout, d: set<nat>, p: nat, t: Tree): Tree
    decreases t
  {
    if p in d then Nil
    else if t.Node? && p >= g.m then
      Join(Rem(g, d, g.Left(p), t.left), Rem(g, d, g.Right(p), t.right))
    else t
  }

  ghost function Remains(g: Layout, f: Forest, d: set<nat>, p: nat): Tree {
    Rem(g, d, p, At(g, f, p))
  }

  /** The forest after the deletion. */
  ghost function Deleted(g: Layout, f: Forest, d: set<nat>): Forest {
    map p | p in f :: Rem(g, d, p, f[p])
  }

  /** Everything at `p` is deleted, going by positions alone. */
  ghost predicate Gone(g: Layout, d: set<nat>, p: nat) {
    p in g.nodes && p < 2 * g.m - 1 &&
    (p in d || (p >= g.m && Gone(g, d, g.Left(p)) && Gone(g, d, g.Right(p))))
  }

  function Child(g: Layout, p: nat, bit: nat): nat {
    if p >= g.m then 2 * (p - g.m) + bit else 0
  }

  /** Where what is left at `p` moves to. */
  ghost function NewPos(g: Layout, d: set<nat>, p: nat): nat
    decreases 2 * g.m - p
  {
    if p !in g.nodes || p >= 2 * g.m - 1 || g.IsRoot(p) then p
    else if Gone(g, d, Sibling(p)) then NewPos(g, d, g.Up(p))
    else Child(g, NewPos(g, d, g.Up(p)), p % 2)
  }

  /** Positions that can be deleted: leaves, or places that are empty already; and
      every empty place below a root is among them. */
  ghost predicate Deletable(g: Layout, f: Forest, d: set<nat>) {
    ForestOk(g, f) && SolidExcept(g, f, d) &&
    forall x :: x in d ==> Present(g, f, x) && !At(g, f, x).Node?
  }

  lemma {:induction false} RemOk(g: Layout, d: set<nat>, p: nat, t: Tree)
    requires LeavesOk(t)
    ensures LeavesOk(Rem(g, d, p, t))
    decreases t
  {
    if t.Node? && p >= g.m {
      RemOk(g, d, g.Left(p), t.left);
      RemOk(g, d, g.Right(p), t.right);
    }
  }

  /** What is left of an inner node is what is left of its children, joined. */
  lemma {:induction false} RemainsNode(g: Layout, f: Forest, d: set<nat>, p: nat)
    requires Deletable(g, f, d) && At(g, f, p).Node?
    ensures p in g.nodes && p >= g.m && p !in d
    ensures Remains(g, f, d, p) == Join(Remains(g, f, d, g.Left(p)), Remains(g, f, d, g.Right(p)))
    ensures Present(g, f, p) && Present(g, f, g.Left(p)) && Present(g, f, g.Right(p))
  {
    AtChildren(g, f, p);
  }

  /** Only what exists can be gone. */
  lemma {:induction false} GonePresent(g: Layout, f: Forest, d: set<nat>, p: nat)
    requires Deletable(g, f, d) && Gone(g, d, p)
    ensures Present(g, f, p)
    ensures p !in d ==> At(g, f, p).Node?
    decreases p
  {
    if p !in d {
      g.ChildFacts(p);
      GonePresent(g, f, d, g.Left(p));
      AtFits(g, f, p);
      if !g.IsRoot(p) {
        g.NonRootFacts(p);
      }
    }
  }

  /** Nothing is left at a position exactly when everything at it is deleted. */
  lemma {:induction false} GoneIff(g: Layout, f: Forest, d: set<nat>, p: nat)
    requires Deletable(g, f, d) && Present(g, f, p)
    requires g.IsRoot(p) ==> !At(g, f, p).Nil?
    ensures Gone(g, d, p) <==> Remains(g, f, d, p).Nil?
    decreases p
  {
    if p in d {
    } else if At(g, f, p).Node? {
      RemainsNode(g, f, d, p);
      g.ChildFacts(p);
      GoneIff(g, f, d, g.Left(p));
      GoneIff(g, f, d, g.Right(p));
    } else if Gone(g, d, p) {
      GonePresent(g, f, d, p);
    }
  }

  /** A position moves to a node of the forest, and never down. */
  lemma {:induction false} NewPosUp(g: Layout, d: set<nat>, p: nat)
    requires g.WellShaped() && p in g.nodes
    ensures NewPos(g, d, p) in g.nodes && p <= NewPos(g, d, p) < 2 * g.m - 1
    decreases 2 * g.m - p
  {
    if !g.IsRoot(p) {
      g.NonRootFacts(p);
      NewPosUp(g, d, g.Up(p));
      g.ChildFacts(NewPos(g, d, g.Up(p)));
    }
  }

  /** A tree that fits at a position fits at any later one. */
  lemma {:induction false} FitsHigher(g: Layout, p: nat, q: nat, t: Tree)
    requires FitsBelow(g, p, t) && p <= q
    ensures FitsBelow(g, q, t)
    decreases t
  {
    if t.Node? {
      FitsHigher(g, g.Left(p), g.Left(q), t.left);
      FitsHigher(g, g.Right(p), g.Right(q), t.right);
    }
  }

  lemma {:induction false} RemFits(g: Layout, d: set<nat>, p: nat, t: Tree)
    requires g.WellShaped() && p in g.nodes && FitsBelow(g, p, t)
    ensures FitsBelow(g, p, Rem(g, d, p, t))
    decreases t
  {
    if t.Node? && p !in d {
      g.ChildFacts(p);
      RemFits(g, d, g.Left(p), t.left);
      RemFits(g, d, g.Right(p), t.right);
      FitsHigher(g, g.Left(p), p, Rem(g, d, g.Left(p), t.left));
      FitsHigher(g, g.Right(p), p, Rem(g, d, g.Right(p), t.right));
    }
  }

  /** No empty tree is inside `t`. */
  ghost predicate Solid(t: Tree) {
    t.Node? ==> !t.left.Nil? && !t.right.Nil? && Solid(t.left) && Solid(t.right)
  }

  lemma {:induction false} RemainsSolid(g: Layout, f: Forest, d: set<nat>, p: nat)
    requires Deletable(g, f, d) && Present(g, f, p)
    ensures Solid(Remains(g, f, d, p))
    decreases p
  {
    if At(g, f, p).Node? {
      RemainsNode(g, f, d, p);
      g.ChildFacts(p);
      RemainsSolid(g, f, d, g.Left(p));
      RemainsSolid(g, f, d, g.Right(p));
    }
  }

  lemma {:induction false} AtSolid(g: Layout, f: Forest, p: nat)
    requires ForestOk(g, f) && forall r :: r in f ==> Solid(f[r])
    ensures Solid(At(g, f, p))
    decreases 2 * g.m - p
  {
    if p in g.nodes && !g.IsRoot(p) {
      g.NonRootFacts(p);
      AtSolid(g, f, g.Up(p));
    }
  }

  /** After a deletion, empty trees are roots again. */
  lemma {:induction false} DeletedCompact(g: Layout, f: Forest, d: set<nat>)
    requires Deletable(g, f, d)
    ensures Compact(g, Deleted(g, f, d))
  {
    var f' := Deleted(g, f, d);
    forall r | r in f'
      ensures Fits(g, r, f'[r]) && Solid(f'[r])
    {
      assert f'[r] == Remains(g, f, d, r);
      RemOk(g, d, r, f[r]);
      RemFits(g, d, r, f[r]);
      RemainsSolid(g, f, d, r);
    }
    forall p: nat | Present(g, f', p) && !g.IsRoot(p)
      ensures !At(g, f', p).Nil?
    {
      AtUp(g, f', p);
      AtSolid(g, f', g.Up(p));
    }
  }

  lemma {:induction false} NewPosChild(g: Layout, f: Forest, d: set<nat>, p: nat)
    requires Deletable(g, f, d) && At(g, f, p).Node?
    ensures p in g.nodes && p >= g.m && NewPos(g, d, p) >= g.m && NewPos(g, d, p) in g.nodes
    ensures var l, r, q := g.Left(p), g.Right(p), NewPos(g, d, p);
            && (!Remains(g, f, d, r).Nil? ==> NewPos(g, d, l) == g.Left(q))
            && (!Remains(g, f, d, l).Nil? ==> NewPos(g, d, r) == g.Right(q))
            && (Remains(g, f, d, r).Nil? ==> NewPos(g, d, l) == q)
            && (Remains(g, f, d, l).Nil? ==> NewPos(g, d, r) == q)
  {
    hide At, Gone, Rem;
    RemainsNode(g, f, d, p);
    g.ChildFacts(p);
    NewPosUp(g, d, p);
    GoneIff(g, f, d, g.Left(p));
    GoneIff(g, f, d, g.Right(p));
  }

  /** What is left at a position is found at its new position. */
  lemma {:induction false} MovedTo(g: Layout, f: Forest, d: set<nat>, p: nat)
    requires Deletable(g, f, d) && Present(g, f, p) && !Remains(g, f, d, p).Nil?
    ensures At(g, Deleted(g, f, d), NewPos(g, d, p)) == Remains(g, f, d, p)
    decreases 2 * g.m - p
  {
    DeletedCompact(g, f, d);
    if !g.IsRoot(p) {
      hide At, Gone, Rem, NewPos, Deleted, SolidExcept;
      AtUp(g, f, p);
      g.NonRootFacts(p);
      var q := g.Up(p);
      RemainsNode(g, f, d, q);
      MovedTo(g, f, d, q);
      NewPosChild(g, f, d, q);
      if !Remains(g, f, d, Sibling(p)).Nil? {
        AtChildren(g, Deleted(g, f, d), NewPos(g, d, q));
      }
    }
  }
}
