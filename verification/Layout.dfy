/** The shape of a forest, apart from how many rows it has. */
module Layouts {
  // A layout says which positions are nodes of the forest. All reasoning about proofs, deletions and
  // additions needs only that the nodes are closed under going to the children, and that two siblings
  // have a parent.

  import opened Positions

  datatype Layout = Layout(m: nat, nodes: set<nat>) {

    function Up(p: nat): nat {
      p / 2 + m
    }

    function Left(p: nat): nat
      requires p >= m
    {
      2 * (p - m)
    }

    function Right(p: nat): nat
      requires p >= m
    {
      2 * (p - m) + 1
    }

    /** A node of the forest without a parent in it. */
    predicate IsRoot(p: nat) {
      p in nodes && Up(p) !in nodes
    }

    ghost predicate WellShaped() {
      (forall p :: p in nodes ==> p < 2 * m - 1) &&
      (forall p: nat {:trigger Left(p)} :: p in nodes && p >= m ==> Left(p) in nodes && Right(p) in nodes) &&
      (forall p: nat {:trigger Right(p)} :: p in nodes && p >= m ==> Left(p) in nodes && Right(p) in nodes) &&
      (forall p: nat {:trigger Up(p)} :: p in nodes && p % 2 == 1 ==> Up(p) in nodes)
    }

    lemma NodeBound(p: nat)
      requires WellShaped() && p in nodes
      ensures p < 2 * m - 1
    {
    }

    /** A root is a left node without a sibling. */
    lemma RootFacts(p: nat)
      requires WellShaped() && IsRoot(p)
      ensures p % 2 == 0 && p + 1 !in nodes
    {
      if p % 2 == 0 {
        assert Up(p + 1) == Up(p);
      }
    }

    /** Any other node is one of two siblings below a node. */
    lemma NonRootFacts(p: nat)
      requires WellShaped() && p in nodes && !IsRoot(p)
      ensures m <= Up(p) < 2 * m - 1 && Up(p) in nodes && Up(p) > p && Up(p) > Sibling(p)
      ensures Sibling(p) in nodes && !IsRoot(Sibling(p)) && Up(Sibling(p)) == Up(p)
      ensures if p % 2 == 0 then p == Left(Up(p)) && Sibling(p) == Right(Up(p))
              else p == Right(Up(p)) && Sibling(p) == Left(Up(p))
    {
      assert Left(Up(p)) == LeftSib(p);
    }

    /** The children of a node are nodes, smaller than it, and not roots. */
    lemma ChildFacts(p: nat)
      requires WellShaped() && p in nodes && p >= m
      ensures Left(p) in nodes && Right(p) in nodes && Left(p) < Right(p) < p
      ensures Up(Left(p)) == p == Up(Right(p))
      ensures !IsRoot(Left(p)) && !IsRoot(Right(p))
      ensures Left(p) % 2 == 0 && Sibling(Left(p)) == Right(p) && Sibling(Right(p)) == Left(p)
    {
    }
  }

  /** `g` is the layout of a forest of `n` leaves that is allocated `rows` rows. */
  ghost predicate LayoutFor(g: Layout, rows: nat, n: nat) {
    n <= Pow2(rows) && g.m == Pow2(rows) && g.WellShaped() &&
    forall p: nat {:trigger InForest(rows, n, p)} :: p in g.nodes <==> InForest(rows, n, p)
  }

  lemma LayoutFits(g: Layout, rows: nat, n: nat)
    requires LayoutFor(g, rows, n)
    ensures n <= Pow2(rows) && g.m == Pow2(rows) && g.WellShaped()
  {
  }

  function LayoutOf(rows: nat, n: nat): Layout {
    Layout(Pow2(rows), set p: nat | p < 2 * Pow2(rows) && InForest(rows, n, p))
  }

  /** Every number of leaves that fits has a layout. */
  lemma {:induction false} LayoutOfFacts(rows: nat, n: nat)
    requires n <= Pow2(rows)
    ensures LayoutFor(LayoutOf(rows, n), rows, n)
  {
    var g := LayoutOf(rows, n);
    forall p: nat | p in g.nodes && p >= g.m
      ensures g.Left(p) in g.nodes && g.Right(p) in g.nodes
    {
      ChildrenInForest(rows, n, p);
    }
    forall p: nat | p in g.nodes && p % 2 == 1
      ensures g.Up(p) in g.nodes
    {
      if IsRoot(rows, n, p) {
        RootIsLeft(rows, n, p);
      }
    }
  }

  /** The layout has the nodes and the roots of the forest. */
  lemma {:induction false} LayoutAt(g: Layout, rows: nat, n: nat, p: nat)
    requires LayoutFor(g, rows, n)
    ensures p in g.nodes <==> InForest(rows, n, p)
    ensures g.Up(p) == Parent(rows, p)
    ensures g.IsRoot(p) <==> IsRoot(rows, n, p)
  {
    assert InForest(rows, n, Parent(rows, p)) <==> g.Up(p) in g.nodes;
  }

  lemma RootNode(g: Layout, p: nat)
    requires g.IsRoot(p)
    ensures p in g.nodes
  {
  }
}
