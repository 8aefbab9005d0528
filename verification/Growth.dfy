/** One more leaf: the carry through the roots. */
module Growth {
  import opened Hashes
  import opened Positions
  import opened Geometry
  import opened Layouts
  import opened Forests
  import opened Slots
  import opened Additions

  lemma ShrMonotone(n: nat, k: nat, h: nat)
    requires n <= k
    ensures Shr(n, h) <= Shr(k, h)
  {
    if h > 0 {
      ShrMonotone(n, k, h - 1);
    }
  }

  /** The layouts before and after an addition fit together. */
  lemma {:induction false} GrowsFor(rows: nat, before: seq<Hash>, adds: seq<Hash>, o: Layout, g: Layout)
    requires LayoutFor(o, rows, |before|) && LayoutFor(g, rows, |before| + |adds|)
    requires forall i :: 0 <= i < |adds| ==> adds[i] != Empty
    ensures Grows(o, g, before, adds)
  {
    var n, k := |before|, |before| + |adds|;
    forall p | p in o.nodes
      ensures p in g.nodes
    {
      LayoutAt(o, rows, n, p);
      LayoutAt(g, rows, k, p);
      ShrMonotone(n, k, Row(rows, p));
    }
    forall p: nat | p < o.m
      ensures p in o.nodes <==> p < n
      ensures p in g.nodes <==> p < k
    {
      LeafNode(o, rows, n, p);
      LeafNode(g, rows, k, p);
    }
  }

  lemma {:induction false} LeafNode(g: Layout, rows: nat, n: nat, p: nat)
    requires LayoutFor(g, rows, n) && p < g.m
    ensures p in g.nodes <==> p < n
  {
    LayoutAt(g, rows, n, p);
    assert Shr(n, 0) == n;
    CollapseLeaf(g, rows, [], p);
  }

  /** The last `h` bits of `n` are ones. */
  ghost predicate AllOnes(n: nat, h: nat) {
    forall j :: 0 <= j < h ==> Shr(n, j) % 2 == 1
  }

  lemma {:induction false} CarryShr(n: nat, h: nat)
    requires AllOnes(n, h)
    ensures Shr(n + 1, h) == Shr(n, h) + 1
  {
    if h > 0 {
      CarryShr(n, h - 1);
    }
  }

  /** A block of old slots does not change when slots are added. */
  lemma {:induction false} BlockPrefix(slots: seq<Hash>, more: seq<Hash>, h: nat, k: nat)
    requires k < Shr(|slots|, h)
    ensures Block(slots + more, h, k) == Block(slots, h, k)
    decreases h
  {
    if h > 0 {
      BlockPrefix(slots, more, h - 1, 2 * k);
      BlockPrefix(slots, more, h - 1, 2 * k + 1);
    }
  }

  /** The roots of the rows above the carry stay. */
  lemma {:induction false} HigherRoots(slots: seq<Hash>, more: seq<Hash>, h: nat)
    requires Shr(|slots| + |more|, h) == Shr(|slots|, h)
    ensures RootTrees(slots + more, h) == RootTrees(slots, h)
    decreases Shr(|slots|, h)
  {
    var k := Shr(|slots|, h);
    if k > 0 {
      HigherRoots(slots, more, h + 1);
      if k % 2 == 1 {
        BlockPrefix(slots, more, h, k - 1);
      }
    }
  }

  /** Rows without a root add nothing to the list of roots. */
  lemma {:induction false} LowerRows(slots: seq<Hash>, h: nat)
    requires forall j :: 0 <= j < h ==> Shr(|slots|, j) % 2 == 0
    ensures RootTrees(slots, 0) == RootTrees(slots, h)
  {
    if h > 0 {
      LowerRows(slots, h - 1);
      RootTreesStep(slots, h - 1);
    }
  }

  lemma RootTreesStep(slots: seq<Hash>, h: nat)
    ensures Shr(|slots|, h) % 2 == 0 ==> RootTrees(slots, h) == RootTrees(slots, h + 1)
    ensures Shr(|slots|, h) % 2 == 1 ==>
              RootTrees(slots, h) == RootTrees(slots, h + 1) + [Block(slots, h, Shr(|slots|, h) - 1)]
  {
  }

  /** After the carry stops on row `h`, the new root is the block up to the new leaf. */
  lemma {:induction false} CarryRoots(slots: seq<Hash>, leaf: Hash, h: nat)
    requires AllOnes(|slots|, h) && Shr(|slots|, h) % 2 == 0
    ensures RootTrees(slots + [leaf], 0) == RootTrees(slots, h) + [Block(slots + [leaf], h, Shr(|slots|, h))]
  {
    hide RootTrees, Block;
    var n, more := |slots|, slots + [leaf];
    CarryShr(n, h);
    forall j | 0 <= j < h
      ensures Shr(|more|, j) % 2 == 0
    {
      CarryShr(n, j);
    }
    LowerRows(more, h);
    RootTreesStep(more, h);
    RootTreesStep(slots, h);
    HigherRoots(slots, [leaf], h + 1);
  }

  lemma {:induction false} CarryAbove(n: nat, t: nat, h: nat)
    requires AllOnes(n, t) && Shr(n, t) % 2 == 0 && h > t
    ensures Shr(n + 1, h) == Shr(n, h)
    decreases h
  {
    CarryShr(n, t);
    if h > t + 1 {
      CarryAbove(n, t, h - 1);
    }
  }

  /** Of the nodes there were, those that are still roots after one more leaf are the
      roots above the carry. */
  lemma {:induction false} RootsAfterCarry(rows: nat, n: nat, t: nat, p: nat)
    requires n + 1 <= Pow2(rows) && AllOnes(n, t) && Shr(n, t) % 2 == 0 && InForest(rows, n, p)
    ensures IsRoot(rows, n + 1, p) <==> IsRoot(rows, n, p) && Row(rows, p) >= t
  {
    hide Row, Offset, IsRoot;
    var row := Row(rows, p);
    ShrMonotone(n, n + 1, row);
    RootIff(rows, n, p);
    RootIff(rows, n + 1, p);
    if row <= t {
      CarryShr(n, row);
    } else {
      CarryAbove(n, t, row);
    }
  }

  /** A node with a new leaf below it is not empty. */
  lemma {:induction false} NewNotEmpty(o: Layout, g: Layout, before: seq<Hash>, adds: seq<Hash>, p: nat)
    requires Grows(o, g, before, adds) && p in g.nodes && p !in o.nodes
    ensures !Collapse(g, before + adds, p).Nil?
    decreases p
  {
    g.NodeBound(p);
    if p >= g.m {
      g.ChildFacts(p);
      RightNew(o, g, before, adds, p);
      NewNotEmpty(o, g, before, adds, g.Right(p));
    }
  }

  lemma {:induction false} RightNew(o: Layout, g: Layout, before: seq<Hash>, adds: seq<Hash>, p: nat)
    requires Grows(o, g, before, adds) && p in g.nodes && p >= g.m && p !in o.nodes
    ensures g.Right(p) !in o.nodes
  {
    assert o.Up(g.Right(p)) == p;
  }

  lemma ShrLess(n: nat, h: nat)
    requires Shr(n, h) % 2 == 1
    ensures Shr(n, h + 1) < Shr(n, h)
  {
  }
}
