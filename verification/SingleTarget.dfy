/** The proof positions of a single target. */
module SingleTarget {
  import opened Positions
  import opened Geometry
  import opened Layouts
  import opened Shape
  import opened Entries
  import opened Sequential
  import opened Uniqueness
  import opened RemoveStep

  /** With one target, the touched nodes are those on the way up from it. */
  lemma {:induction false} TouchedByOne(g: Layout, t: nat, p: nat)
    requires g.WellShaped() && t in g.nodes && p in g.nodes
    ensures Touched(g, {t}, p) <==> AtOrAbove(g, p, t)
    decreases p
  {
    g.NodeBound(p);
    if p >= g.m {
      g.ChildFacts(p);
      TouchedByOne(g, t, g.Left(p));
      TouchedByOne(g, t, g.Right(p));
      if AtOrAbove(g, g.Left(p), t) { AboveOf(g, p, g.Left(p), t); }
      if AtOrAbove(g, g.Right(p), t) { AboveOf(g, p, g.Right(p), t); }
      if Above(g, p, t) { BelowChild(g, p, t); }
    } else if Above(g, p, t) {
      AboveBounds(g, p, t);
    }
  }

  /** The siblings of the nodes on the way up, below `pos`. */
  ghost predicate SiblingsBelow(g: Layout, t: nat, pos: nat, proofs: seq<nat>) {
    && Ascending(proofs) && (forall i :: 0 <= i < |proofs| ==> proofs[i] < LeftSib(pos))
    && forall x: nat :: x in proofs <==> IsProofPos(g, {t}, x) && Sibling(x) < pos
  }

  lemma {:induction false} NextSibling(g: Layout, t: nat, pos: nat, proofs: seq<nat>)
    requires g.WellShaped() && t in g.nodes && pos in g.nodes && AtOrAbove(g, pos, t) && !g.IsRoot(pos)
    requires SiblingsBelow(g, t, pos, proofs)
    ensures SiblingsBelow(g, t, g.Up(pos), proofs + [Sibling(pos)]) && g.Up(pos) in g.nodes &&
            AtOrAbove(g, g.Up(pos), t)
  {
    hide Above, Touched, Layout.WellShaped;
    g.NonRootFacts(pos);
    var u, s := g.Up(pos), Sibling(pos);
    AboveOf(g, u, pos, t);
    SiblingNeeded(g, t, pos);
    forall x: nat
      ensures x in proofs + [s] <==> IsProofPos(g, {t}, x) && Sibling(x) < u
    {
      if IsProofPos(g, {t}, x) && Sibling(x) < u && !(Sibling(x) < pos) {
        NodeSibling(g, x);
        TouchedByOne(g, t, Sibling(x));
        Between(g, t, pos, Sibling(x));
      }
    }
    LowerSiblings(g, pos);
  }

  lemma NodeSibling(g: Layout, x: nat)
    requires g.WellShaped() && x in g.nodes && !g.IsRoot(x)
    ensures Sibling(x) in g.nodes && Sibling(Sibling(x)) == x
  {
    g.NonRootFacts(x);
  }

  lemma LowerSiblings(g: Layout, pos: nat)
    requires g.WellShaped() && pos in g.nodes && !g.IsRoot(pos)
    ensures Sibling(pos) < LeftSib(g.Up(pos)) && LeftSib(pos) <= Sibling(pos)
  {
    g.NonRootFacts(pos);
  }

  lemma {:induction false} SiblingNeeded(g: Layout, t: nat, pos: nat)
    requires g.WellShaped() && t in g.nodes && pos in g.nodes && AtOrAbove(g, pos, t) && !g.IsRoot(pos)
    ensures IsProofPos(g, {t}, Sibling(pos)) && Sibling(Sibling(pos)) == pos
  {
    hide Above, Touched, Layout.WellShaped;
    g.NonRootFacts(pos);
    TouchedByOne(g, t, pos);
    TouchedByOne(g, t, Sibling(pos));
    if AtOrAbove(g, Sibling(pos), t) {
      if pos < Sibling(pos) { Chain(g, pos, Sibling(pos), t); } else { Chain(g, Sibling(pos), pos, t); }
      SiblingsApart(g, g.Up(pos));
    }
  }

  /** On the way up there is nothing between a node and its parent. */
  lemma {:induction false} Between(g: Layout, t: nat, pos: nat, y: nat)
    requires g.WellShaped() && pos in g.nodes && AtOrAbove(g, pos, t) && AtOrAbove(g, y, t) && pos <= y < g.Up(pos)
    ensures y == pos
  {
    hide Above, Layout.WellShaped;
    Chain(g, pos, y, t);
    if y != pos { AboveParent(g, y, pos); }
  }

  /** The siblings on the way up: the same list as for any number of targets. */
  method ProofPosition(target: nat, n: nat, totalRows: nat, ghost g: Layout) returns (proofs: seq<nat>)
    requires LayoutFor(g, totalRows, n) && target in g.nodes
    ensures proofs == PlanFor(g, {target}).proof
  {
    hide LayoutFor, Row, Touched, Layout.WellShaped, Above, PlanFor, SiblingsBelow, Layout.IsRoot,
         IsRootPositionOnRowTotalRows, TreeRows;
    LayoutFits(g, totalRows, n);
    proofs := [];
    var pos := target;
    g.NodeBound(target);
    NoneBelow(g, target);
    var h := Row(totalRows, target);
    RowBounds(totalRows, target);
    while h <= totalRows
      invariant pos in g.nodes && AtOrAbove(g, pos, target) && Valid(totalRows, pos) &&
                h == Row(totalRows, pos) <= totalRows
      invariant SiblingsBelow(g, target, pos, proofs)
      decreases 2 * g.m - pos
    {
      LayoutAt(g, totalRows, n, pos);
      RootTest(totalRows, n, pos);
      if IsRootPositionOnRowTotalRows(pos, n, h, totalRows) {
        break;
      }
      NextSibling(g, target, pos, proofs);
      g.NonRootFacts(pos);
      proofs := proofs + [Sibling(pos)];
      RowStep(totalRows, pos);
      pos := Parent(totalRows, pos);
      RowBounds(totalRows, pos);
      h := h + 1;
    }
    LayoutAt(g, totalRows, n, pos);
    RootTest(totalRows, n, pos);
    AllSiblings(g, target, pos, proofs);
  }

  lemma {:induction false} NoneBelow(g: Layout, t: nat)
    requires g.WellShaped() && t in g.nodes
    ensures SiblingsBelow(g, t, t, [])
  {
    hide Above, Touched, Layout.WellShaped;
    forall x: nat | IsProofPos(g, {t}, x)
      ensures Sibling(x) >= t
    {
      NodeSibling(g, x);
      TouchedByOne(g, t, Sibling(x));
      if Above(g, Sibling(x), t) { AboveBounds(g, Sibling(x), t); }
    }
  }

  lemma {:induction false} AllSiblings(g: Layout, t: nat, pos: nat, proofs: seq<nat>)
    requires g.WellShaped() && t in g.nodes && g.IsRoot(pos) && AtOrAbove(g, pos, t) && SiblingsBelow(g, t, pos, proofs)
    ensures proofs == PlanFor(g, {t}).proof
  {
    hide Above, Touched, Layout.WellShaped, PlanFor;
    PlanIsProofPos(g, {t});
    RootNode(g, pos);
    forall x: nat | IsProofPos(g, {t}, x)
      ensures Sibling(x) < pos
    {
      NodeSibling(g, x);
      TouchedByOne(g, t, Sibling(x));
      BelowRoot(g, t, pos, x);
    }
    AscendingUnique(proofs, PlanFor(g, {t}).proof);
  }

  lemma {:induction false} BelowRoot(g: Layout, t: nat, pos: nat, x: nat)
    requires g.WellShaped() && t in g.nodes && g.IsRoot(pos) && AtOrAbove(g, pos, t)
    requires x in g.nodes && !g.IsRoot(x) && AtOrAbove(g, Sibling(x), t)
    ensures Sibling(x) < pos
  {
    hide Above, Layout.WellShaped;
    g.NonRootFacts(x);
    var y := Sibling(x);
    if y >= pos {
      Chain(g, pos, y, t);
      if y != pos { RootBelow(g, y, pos); }
    }
  }
}
