/** Which empty roots are written over by an addition. */
module Destroyed {
  import opened Hashes
  import opened Positions
  import opened Geometry
  import opened Layouts
  import opened Forests
  import opened Slots
  import opened Additions
  import opened Growth

  /** A list of hashes that is empty where the trees are. */
  ghost predicate SameEmpty(roots: seq<Hash>, trees: seq<Tree>) {
    |roots| == |trees| && forall i :: 0 <= i < |roots| ==> (roots[i] == Empty <==> trees[i].Nil?)
  }

  /** An empty root from before that is no longer one of the roots of `k` leaves on row
      `h` or above. */
  ghost predicate Popped(o: Layout, slots: seq<Hash>, rows: nat, k: nat, h: nat, p: nat) {
    o.IsRoot(p) && Collapse(o, slots, p).Nil? && Valid(rows, p) && !(IsRoot(rows, k, p) && Row(rows, p) >= h)
  }

  /** A root from before that is still one of those roots. */
  ghost predicate Standing(o: Layout, rows: nat, k: nat, h: nat, p: nat) {
    o.IsRoot(p) && Valid(rows, p) && IsRoot(rows, k, p) && Row(rows, p) >= h
  }

  ghost predicate Listed(o: Layout, slots: seq<Hash>, rows: nat, k: nat, h: nat, deleted: seq<nat>) {
    && Ascending(deleted)
    && (forall p: nat :: p in deleted <==> Popped(o, slots, rows, k, h, p))
    && (forall p: nat, q: nat :: p in deleted && Standing(o, rows, k, h, q) ==> p < q)
  }

  /** What is known where the roots of `k` leaves, down to row `h`, are still standing. */
  ghost predicate AtRow(o: Layout, g: Layout, before: seq<Hash>, adds: seq<Hash>, rows: nat, i: nat, h: nat) {
    && i < |adds| && |before| + |adds| <= Pow2(rows)
    && LayoutFor(o, rows, |before|) && LayoutFor(g, rows, |before| + |adds|)
    && (forall j :: 0 <= j < |adds| ==> adds[j] != Empty)
    && AllOnes(|before| + i, h)
  }

  /** The root on row `h` of the forest part way through the addition. */
  lemma {:induction false} RootMidway(o: Layout, g: Layout, before: seq<Hash>, adds: seq<Hash>, rows: nat, i: nat,
                                      h: nat)
    requires AtRow(o, g, before, adds, rows, i, h) && Shr(|before| + i, h) % 2 == 1
    ensures h <= rows
    ensures var n := |before| + i;
            var p := RootPosition(n, h, rows);
            && IsRoot(rows, n, p) && Valid(rows, p) && Row(rows, p) == h && p in g.nodes
            && Block(before + adds[..i], h, Shr(n, h) - 1) == Collapse(g, before + adds, p)
            && (Collapse(g, before + adds, p).Nil? ==> o.IsRoot(p))
            && (forall q: nat :: Valid(rows, q) && IsRoot(rows, n, q) && Row(rows, q) == h ==> q == p)
  {
    hide Row, Offset, IsRoot, Collapse, Block, LayoutFor, InForest, Layout.WellShaped, Layout.IsRoot, RootPosition;
    var n, k := |before| + i, |before| + |adds|;
    RootOnRow(n, rows, h);
    var p := RootPosition(n, h, rows);
    RootValid(rows, n, p);
    RootIn(rows, n, p);
    InLarger(rows, n, k, p);
    LayoutAt(g, rows, k, p);
    LayoutFits(g, rows, k);
    CollapseBlock(g, rows, before + adds, p);
    assert before + adds == (before + adds[..i]) + adds[i..];
    BlockPrefix(before + adds[..i], adds[i..], h, Shr(n, h) - 1);
    forall q: nat | Valid(rows, q) && IsRoot(rows, n, q) && Row(rows, q) == h
      ensures q == p
    {
      RootIsLeft(rows, n, q);
      SamePlace(rows, p, q);
    }
    if Collapse(g, before + adds, p).Nil? {
      GrowsFor(rows, before, adds, o, g);
      if p !in o.nodes {
        NewNotEmpty(o, g, before, adds, p);
      }
      StillRoot(o, rows, |before|, n, p);
    }
  }

  lemma RootIn(rows: nat, n: nat, p: nat)
    requires IsRoot(rows, n, p)
    ensures InForest(rows, n, p)
  {
  }

  lemma {:induction false} InLarger(rows: nat, n: nat, k: nat, p: nat)
    requires n <= k && InForest(rows, n, p)
    ensures InForest(rows, k, p)
  {
    ShrMonotone(n, k, Row(rows, p));
  }

  /** A root of the larger forest that was a node before was a root. */
  lemma {:induction false} StillRoot(o: Layout, rows: nat, n: nat, k: nat, p: nat)
    requires LayoutFor(o, rows, n) && n <= k && IsRoot(rows, k, p) && p in o.nodes
    ensures o.IsRoot(p)
  {
    LayoutAt(o, rows, n, p);
    if InForest(rows, n, Parent(rows, p)) {
      InLarger(rows, n, k, Parent(rows, p));
    }
  }

  /** Before the addition every root is standing. */
  lemma {:induction false} NonePopped(o: Layout, slots: seq<Hash>, rows: nat, n: nat)
    requires LayoutFor(o, rows, n)
    ensures Listed(o, slots, rows, n, 0, [])
  {
    forall p: nat
      ensures !Popped(o, slots, rows, n, 0, p)
    {
      LayoutAt(o, rows, n, p);
    }
  }

  /** Popping the root on row `h`. */
  lemma {:induction false} PopRow(o: Layout, g: Layout, before: seq<Hash>, adds: seq<Hash>, rows: nat, i: nat, h: nat,
                                  deleted: seq<nat>)
    requires AtRow(o, g, before, adds, rows, i, h) && Shr(|before| + i, h) % 2 == 1
    requires Listed(o, before + adds, rows, |before| + i, h, deleted)
    ensures h <= rows
    ensures var p := RootPosition(|before| + i, h, rows);
            Listed(o, before + adds, rows, |before| + i, h + 1,
                   deleted + if Block(before + adds[..i], h, Shr(|before| + i, h) - 1).Nil? then [p] else [])
  {
    hide Row, IsRoot, Collapse, Block, LayoutFor, Layout.WellShaped, Layout.IsRoot, RootPosition, Shr, Pow2, AllOnes;
    RootMidway(o, g, before, adds, rows, i, h);
    var n, p := |before| + i, RootPosition(|before| + i, h, rows);
    var empty := Block(before + adds[..i], h, Shr(n, h) - 1).Nil?;
    var after := deleted + if empty then [p] else [];
    CollapseSame(o, g, before + adds, p, rows, |before|, |before| + |adds|);
    assert empty ==> Standing(o, rows, n, h, p);
    forall q: nat
      ensures q in after <==> Popped(o, before + adds, rows, n, h + 1, q)
    {
    }
    var h1 := h + 1;
    LaterRows(o, rows, n, h, h1, p);
    forall q: nat, r: nat | q in after && Standing(o, rows, n, h1, r)
      ensures q < r
    {
      assert Standing(o, rows, n, h, r);
    }
    assert Ascending(after) by {
      if empty { AppendAscending(deleted, p); } else { assert after == deleted; }
    }
  }

  lemma AppendAscending(s: seq<nat>, p: nat)
    requires Ascending(s) && forall x :: x in s ==> x < p
    ensures Ascending(s + [p])
  {
    assert forall i :: 0 <= i < |s| ==> s[i] in s;
  }

  lemma {:induction false} LaterRows(o: Layout, rows: nat, n: nat, h: nat, h1: nat, p: nat)
    requires Valid(rows, p) && Row(rows, p) == h < h1
    ensures forall q: nat :: Standing(o, rows, n, h1, q) ==> p < q
  {
    hide Row, IsRoot;
    forall q: nat | Standing(o, rows, n, h1, q)
      ensures p < q
    {
      if q <= p { RowMonotone(rows, q, p); }
    }
  }

  lemma {:induction false} CollapseSame(o: Layout, g: Layout, slots: seq<Hash>, p: nat, rows: nat, n: nat, k: nat)
    requires LayoutFor(o, rows, n) && LayoutFor(g, rows, k)
    ensures Collapse(o, slots, p) == Collapse(g, slots, p)
  {
    CollapseShape(o, g, slots, p);
  }

  lemma {:induction false} CollapseShape(o: Layout, g: Layout, slots: seq<Hash>, p: nat)
    requires o.m == g.m
    ensures Collapse(o, slots, p) == Collapse(g, slots, p)
    decreases p
  {
    if g.m <= p < 2 * g.m - 1 {
      CollapseShape(o, g, slots, g.Left(p));
      CollapseShape(o, g, slots, g.Right(p));
    }
  }

  /** The carry is over: the roots left are those of one leaf more. */
  lemma {:induction false} CarryOver(o: Layout, g: Layout, before: seq<Hash>, adds: seq<Hash>, rows: nat, i: nat,
                                     h: nat, deleted: seq<nat>)
    requires AtRow(o, g, before, adds, rows, i, h) && Shr(|before| + i, h) % 2 == 0
    requires Listed(o, before + adds, rows, |before| + i, h, deleted)
    ensures Listed(o, before + adds, rows, |before| + i + 1, 0, deleted)
  {
    hide Row, IsRoot, Collapse, LayoutFor, Layout.WellShaped, Layout.IsRoot, Shr, Pow2, AllOnes, InForest;
    var n := |before| + i;
    var n1 := n + 1;
    forall p: nat | o.IsRoot(p) && Valid(rows, p)
      ensures IsRoot(rows, n1, p) <==> IsRoot(rows, n, p) && Row(rows, p) >= h
    {
      OldNode(o, p);
      LayoutAt(o, rows, |before|, p);
      InLarger(rows, |before|, n, p);
      RootsAfterCarry(rows, n, h, p);
    }
    forall p: nat
      ensures Popped(o, before + adds, rows, n, h, p) <==> Popped(o, before + adds, rows, n1, 0, p)
    {
    }
    forall p: nat
      ensures Standing(o, rows, n, h, p) <==> Standing(o, rows, n1, 0, p)
    {
    }
    assert Listed(o, before + adds, rows, n1, 0, deleted);
  }

  lemma OldNode(o: Layout, p: nat)
    requires o.IsRoot(p)
    ensures p in o.nodes
  {
  }

  /** When all leaves are added, the empty roots popped are those written over. */
  lemma {:induction false} AllPopped(o: Layout, g: Layout, before: seq<Hash>, adds: seq<Hash>, rows: nat,
                                     deleted: seq<nat>)
    requires LayoutFor(o, rows, |before|) && LayoutFor(g, rows, |before| + |adds|)
    requires forall i :: 0 <= i < |adds| ==> adds[i] != Empty
    requires Listed(o, before + adds, rows, |before| + |adds|, 0, deleted)
    ensures forall p: nat :: p in deleted <==> p in WrittenOver(o, g, before + adds)
  {
    hide Row, IsRoot, Collapse, LayoutFor, Layout.WellShaped, Layout.IsRoot, Pow2;
    GrowsFor(rows, before, adds, o, g);
    GrowsShaped(o, g, before, adds);
    LayoutFits(g, rows, |before| + |adds|);
    forall p: nat
      ensures p in deleted <==> p in WrittenOver(o, g, before + adds)
    {
      CollapseShape(o, g, before + adds, p);
      LayoutAt(g, rows, |before| + |adds|, p);
      if o.IsRoot(p) {
        OldNode(o, p);
        g.NodeBound(p);
      }
    }
  }

  /** The empty roots that are written over when `numAdds` leaves are added, lowest first. */
  method RootsToDestroy(numAdds: nat, numLeaves0: nat, origRoots: seq<Hash>, ghost before: seq<Hash>,
                        ghost adds: seq<Hash>, ghost o: Layout, ghost g: Layout)
    returns (deleted: seq<nat>)
    requires |before| == numLeaves0 && |adds| == numAdds
    requires LayoutFor(o, TreeRows(numLeaves0 + numAdds), numLeaves0)
    requires LayoutFor(g, TreeRows(numLeaves0 + numAdds), numLeaves0 + numAdds)
    requires forall i :: 0 <= i < |adds| ==> adds[i] != Empty
    requires SameEmpty(origRoots, RootTrees(before, 0))
    ensures Ascending(deleted)
    ensures forall p: nat :: p in deleted <==> p in WrittenOver(o, g, before + adds)
  {
    hide LayoutFor, Listed, RootTrees, Block, Shr, WrittenOver, RootPosition;
    ghost var rows, slots := TreeRows(numLeaves0 + numAdds), before + adds;
    LayoutFits(g, rows, numLeaves0 + numAdds);
    var roots, numLeaves := origRoots, numLeaves0;
    deleted := [];
    NonePopped(o, slots, rows, numLeaves0);
    assert before + adds[..0] == before;
    for i := 0 to numAdds
      invariant numLeaves == numLeaves0 + i
      invariant SameEmpty(roots, RootTrees(before + adds[..i], 0))
      invariant Listed(o, slots, rows, numLeaves, 0, deleted)
    {
      ghost var now := before + adds[..i];
      var h := 0;
      while RootExistsOnRow(numLeaves, h)
        invariant AllOnes(numLeaves, h)
        invariant SameEmpty(roots, RootTrees(now, h))
        invariant Listed(o, slots, rows, numLeaves, h, deleted)
        decreases Shr(numLeaves, h)
      {
        RootTreesStep(now, h);
        PopRow(o, g, before, adds, rows, i, h, deleted);
        ShrDecreases(numLeaves, h);
        var root := roots[|roots| - 1];
        roots := roots[..|roots| - 1];
        if root == Empty {
          deleted := deleted + [RootPosition(numLeaves, h, TreeRows(numLeaves + (numAdds - i)))];
        } else {
          assert deleted + [] == deleted;
        }
        h := h + 1;
      }
      CarryOver(o, g, before, adds, rows, i, h, deleted);
      PushNew(now, adds[i], h, roots);
      roots := roots + [Digest(1)];
      numLeaves := numLeaves + 1;
      assert before + adds[..i + 1] == now + [adds[i]];
    }
    ListedAscending(o, slots, rows, numLeaves, deleted);
    assert before + adds[..numAdds] == slots;
    AllPopped(o, g, before, adds, rows, deleted);
  }

  lemma ListedAscending(o: Layout, slots: seq<Hash>, rows: nat, k: nat, deleted: seq<nat>)
    requires Listed(o, slots, rows, k, 0, deleted)
    ensures Ascending(deleted)
  {
  }

  lemma ShrDecreases(n: nat, h: nat)
    requires Shr(n, h) % 2 == 1
    ensures Shr(n, h + 1) < Shr(n, h)
  {
  }

  /** The new root is not empty. */
  lemma {:induction false} PushNew(now: seq<Hash>, leaf: Hash, h: nat, roots: seq<Hash>)
    requires AllOnes(|now|, h) && Shr(|now|, h) % 2 == 0 && leaf != Empty
    requires SameEmpty(roots, RootTrees(now, h))
    ensures SameEmpty(roots + [Digest(1)], RootTrees(now + [leaf], 0))
  {
    hide Shr;
    CarryRoots(now, leaf, h);
    CarryNotEmpty(now, leaf, h);
  }

  lemma {:induction false} CarryNotEmpty(now: seq<Hash>, leaf: Hash, h: nat)
    requires AllOnes(|now|, h) && leaf != Empty
    ensures !Block(now + [leaf], h, Shr(|now|, h)).Nil?
  {
    if h > 0 {
      CarryNotEmpty(now, leaf, h - 1);
      BlockStep(now + [leaf], h, Shr(|now|, h));
    }
  }
}
