/** What is left moves to different places. */
module OneToOne {
  import opened Positions
  import opened Layouts
  import opened Forests
  import opened Honest
  import opened Deletion

  /** Something is left at `p`. */
  ghost predicate Kept(g: Layout, f: Forest, d: set<nat>, p: nat) {
    Present(g, f, p) && !Remains(g, f, d, p).Nil?
  }

  /** The lowest node that takes the place of `p`: down to the only child left, as long
      as there is just one. */
  ghost function Lowest(g: Layout, f: Forest, d: set<nat>, p: nat): nat
    decreases p
  {
    if At(g, f, p).Node? && g.m <= p < 2 * g.m - 1 then
      if Remains(g, f, d, g.Left(p)).Nil? then Lowest(g, f, d, g.Right(p))
      else if Remains(g, f, d, g.Right(p)).Nil? then Lowest(g, f, d, g.Left(p))
      else p
    else p
  }

  /** The highest node whose place `p` takes: up as long as the sibling is gone. */
  ghost function Highest(g: Layout, d: set<nat>, p: nat): nat
    decreases 2 * g.m - p
  {
    if p !in g.nodes || p >= 2 * g.m - 1 || g.IsRoot(p) || !Gone(g, d, Sibling(p)) then p
    else Highest(g, d, g.Up(p))
  }

  /** A root, or a node that keeps its sibling. */
  ghost predicate KeepsPlace(g: Layout, d: set<nat>, p: nat) {
    p in g.nodes && (g.IsRoot(p) || !Gone(g, d, Sibling(p)))
  }

  /** Above what is left, something is left. */
  lemma {:induction false} KeptUp(g: Layout, f: Forest, d: set<nat>, p: nat)
    requires Deletable(g, f, d) && Kept(g, f, d, p) && !g.IsRoot(p)
    ensures Kept(g, f, d, g.Up(p)) && At(g, f, g.Up(p)).Node? && Present(g, f, Sibling(p))
    ensures g.m <= g.Up(p) < 2 * g.m - 1 && g.Up(p) > p
    ensures Gone(g, d, Sibling(p)) <==> Remains(g, f, d, Sibling(p)).Nil?
    ensures p == if p % 2 == 0 then g.Left(g.Up(p)) else g.Right(g.Up(p))
    ensures Sibling(p) == if p % 2 == 0 then g.Right(g.Up(p)) else g.Left(g.Up(p))
  {
    hide At, Gone, Rem, SolidExcept;
    AtUp(g, f, p);
    g.NonRootFacts(p);
    RemainsNode(g, f, d, g.Up(p));
    GoneIff(g, f, d, Sibling(p));
  }

  lemma {:induction false} HighestFacts(g: Layout, f: Forest, d: set<nat>, p: nat)
    requires Deletable(g, f, d) && Kept(g, f, d, p)
    ensures var h := Highest(g, d, p);
            && h >= p && Kept(g, f, d, h) && KeepsPlace(g, d, h)
            && NewPos(g, d, h) == NewPos(g, d, p)
            && Lowest(g, f, d, h) == Lowest(g, f, d, p)
    decreases 2 * g.m - p
  {
    if !g.IsRoot(p) && Gone(g, d, Sibling(p)) {
      hide At, Gone, Rem, SolidExcept;
      KeptUp(g, f, d, p);
      HighestFacts(g, f, d, g.Up(p));
    }
  }

  /** Nodes that keep their sibling move to different places. */
  lemma {:induction false} HighestInjective(g: Layout, f: Forest, d: set<nat>, p: nat, q: nat)
    requires Deletable(g, f, d) && Kept(g, f, d, p) && Kept(g, f, d, q)
    requires KeepsPlace(g, d, p) && KeepsPlace(g, d, q) && NewPos(g, d, p) == NewPos(g, d, q)
    ensures p == q
    decreases 2 * g.m - p
  {
    hide At, Gone, Rem, SolidExcept, Highest, Lowest;
    PlaceBelow(g, f, d, p);
    PlaceBelow(g, f, d, q);
    if !g.IsRoot(p) && !g.IsRoot(q) {
      KeptUp(g, f, d, p);
      KeptUp(g, f, d, q);
      HighestFacts(g, f, d, g.Up(p));
      HighestFacts(g, f, d, g.Up(q));
      HighestInjective(g, f, d, Highest(g, d, g.Up(p)), Highest(g, d, g.Up(q)));
    }
  }

  /** A node that keeps its sibling moves to a child of where its parent moves. */
  lemma {:induction false} PlaceBelow(g: Layout, f: Forest, d: set<nat>, p: nat)
    requires Deletable(g, f, d) && Kept(g, f, d, p) && KeepsPlace(g, d, p)
    ensures g.IsRoot(p) ==> NewPos(g, d, p) == p
    ensures !g.IsRoot(p) ==>
              && !g.IsRoot(NewPos(g, d, p)) && g.Up(NewPos(g, d, p)) == NewPos(g, d, g.Up(p))
              && NewPos(g, d, p) % 2 == p % 2 && Lowest(g, f, d, g.Up(p)) == g.Up(p)
  {
    hide At, Gone, Rem, SolidExcept;
    if !g.IsRoot(p) {
      KeptUp(g, f, d, p);
      NewPosChild(g, f, d, g.Up(p));
      g.ChildFacts(NewPos(g, d, g.Up(p)));
    }
  }

  /** Leaves that stay move to different places. */
  lemma {:induction false} LeavesInjective(g: Layout, f: Forest, d: set<nat>, p: nat, q: nat)
    requires Deletable(g, f, d) && Kept(g, f, d, p) && Kept(g, f, d, q)
    requires !At(g, f, p).Node? && !At(g, f, q).Node? && NewPos(g, d, p) == NewPos(g, d, q)
    ensures p == q
  {
    hide At, Gone, Rem, SolidExcept, Highest;
    HighestFacts(g, f, d, p);
    HighestFacts(g, f, d, q);
    HighestInjective(g, f, d, Highest(g, d, p), Highest(g, d, q));
  }
}
