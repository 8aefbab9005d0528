/** Proofs made from leaves and their positions. */
module Proving {
  import opened Hashes
  import opened Options
  import opened Positions
  import opened Geometry
  import opened Layouts
  import opened Shape
  import opened Entries
  import opened Calculation
  import opened Forests
  import opened Honest
  import opened Sequential
  import opened Slots
  import opened Uniqueness
  import opened Passes
  import opened Stumps
  import opened StumpState
  import opened ProofPositions

  /** No hash is asked for twice. */
  predicate NoRepeat(hashes: seq<Hash>) {
    forall i, j :: 0 <= i < j < |hashes| ==> hashes[i] != hashes[j]
  }

  lemma HashesIn(hashes: seq<Hash>)
    ensures forall i :: 0 <= i < |hashes| ==> hashes[i] in HashSet(hashes)
  {
  }

  /** The positions of leaves as targets: they are in the forest, none is below another, and they repeat as the hashes
      do. */
  lemma {:induction false} LeafTargets(g: Layout, slots: seq<Hash>, hashes: seq<Hash>, targets: seq<nat>)
    requires g.WellShaped() && |targets| == |hashes|
    requires forall i :: 0 <= i < |hashes| ==> At(g, ForestOf(g, slots), targets[i]) == Leaf(hashes[i])
    requires forall i, j :: 0 <= i < j < |hashes| && hashes[i] == hashes[j] ==> targets[i] == targets[j]
    ensures ValidTargets(g, Elems(targets)) && (NoDuplicates(targets) <==> NoRepeat(hashes))
    ensures forall p :: p in targets ==> p in g.nodes
    ensures InOrder(SortPositions(targets)) && Elems(SortPositions(targets)) == Elems(targets)
    ensures Ascending(SortPositions(targets)) <==> NoRepeat(hashes)
    ensures forall p :: p in SortPositions(targets) ==> p in g.nodes
  {
    hide ForestOf, At, Layout.WellShaped, ForestOk, SortPositions, Touched;
    var f := ForestOf(g, slots);
    ForestOfCompact(g, slots);
    CompactOk(g, f);
    LeavesValid(g, f, Elems(targets));
    SortPositionsFacts(targets);
    forall p | p in targets || p in SortPositions(targets)
      ensures p in g.nodes
    {
      assert p in Elems(targets) || p in Elems(SortPositions(targets));
    }
    forall i, j | 0 <= i < j < |hashes|
      ensures targets[i] == targets[j] <==> hashes[i] == hashes[j]
    {
      assert At(g, f, targets[i]) == Leaf(hashes[i]) && At(g, f, targets[j]) == Leaf(hashes[j]);
    }
  }

  /** No proof is honest for a hash twice. */
  lemma {:induction false} NoneTwice(slots: seq<Hash>, hashes: seq<Hash>, proof: Proof)
    requires GoodSlots(slots) && Proves(slots, hashes, proof)
    ensures NoRepeat(hashes)
  {
    hide GoodSlots, ForestOf, At, PlanFor, LayoutFor, ShapeOf, Layout.WellShaped;
    var g := ShapeOf(|slots|);
    Shapes(|slots|, 0);
    LayoutFits(g, TreeRows(|slots|), |slots|);
    forall i, j | 0 <= i < j < |hashes|
      ensures hashes[i] != hashes[j]
    {
      if hashes[i] == hashes[j] { OnePlace(g, slots, proof.targets[i], proof.targets[j]); }
    }
  }

  lemma HonestFrom(g: Layout, slots: seq<Hash>, hashes: seq<Hash>, targets: seq<nat>, proof: seq<Hash>)
    requires NoDuplicates(targets) && |targets| == |hashes|
    requires forall i :: 0 <= i < |hashes| ==> At(g, ForestOf(g, slots), targets[i]) == Leaf(hashes[i])
    requires |proof| == |PlanFor(g, Elems(targets)).proof|
    requires forall i :: 0 <= i < |proof| ==>
               proof[i] == Merkle(At(g, ForestOf(g, slots), PlanFor(g, Elems(targets)).proof[i]))
    ensures HonestProof(g, ForestOf(g, slots), hashes, Proof(targets, proof))
  {
    hide At, ForestOf, PlanFor, Merkle;
  }

  /** Each hash is that of the leaf at its target. */
  ghost predicate Located(slots: seq<Hash>, hashes: seq<Hash>, targets: seq<nat>) {
    var g := ShapeOf(|slots|);
    |targets| == |hashes| &&
    forall i :: 0 <= i < |hashes| ==> At(g, ForestOf(g, slots), targets[i]) == Leaf(hashes[i])
  }

  lemma IsLocated(slots: seq<Hash>, hashes: seq<Hash>, targets: seq<nat>)
    requires var g := ShapeOf(|slots|);
             |targets| == |hashes| &&
             forall i :: 0 <= i < |hashes| ==> At(g, ForestOf(g, slots), targets[i]) == Leaf(hashes[i])
    ensures Located(slots, hashes, targets)
  {
    hide At, ForestOf, ShapeOf;
  }

  lemma ItProves(slots: seq<Hash>, hashes: seq<Hash>, proof: Proof)
    ensures Proves(slots, hashes, proof) <==> HonestProof(ShapeOf(|slots|), ForestOf(ShapeOf(|slots|), slots), hashes,
                                                          proof)
  {
    hide HonestProof, ForestOf, ShapeOf;
  }

  /** What is beside the way up from leaves is not empty. */
  lemma {:induction false} BesideNotEmpty(g: Layout, slots: seq<Hash>, targets: seq<nat>, needed: seq<nat>, i: nat)
    requires g.WellShaped() && BesideTargets(g, targets, needed) && i < |needed| && forall p :: p in targets ==>
             At(g, ForestOf(g, slots), p).Leaf?
    ensures needed[i] in g.nodes && Merkle(At(g, ForestOf(g, slots), needed[i])) != Empty
  {
    hide Layout.WellShaped, ForestOf, At, Above, Layout.IsRoot, Merkle, ForestOk, Present;
    var f, p := ForestOf(g, slots), needed[i];
    ForestOfCompact(g, slots);
    CompactOk(g, f);
    g.NonRootFacts(p);
    assert OverTarget(g, targets, Sibling(p));
    var c :| c in targets && AtOrAbove(g, Sibling(p), c);
    var q := Sibling(p);
    if c != q { NodeAbove(g, f, c, q); }
    UpAbove(g, q);
    NodeAbove(g, f, q, g.Up(q));
    PresentBelow(g, f, p);
    NotNilThere(g, f, p);
    AtFits(g, f, p);
    MerkleEmpty(At(g, f, p));
  }

  /** A calculation with targets arrives somewhere. */
  lemma {:induction false} SomeRootFound(g: Layout, a: seq<Item<Hash>>, b: seq<Item<Hash>>, proof: seq<Hash>)
    requires g.WellShaped() && InNodes(g, a) && InNodes(g, b) && |a| + |b| > 0 && Pass(g, a, b, proof, NextHash).Some?
    ensures |Pass(g, a, b, proof, NextHash).value| > 0
    decreases Weight(g, a) + Weight(g, b)
  {
    hide Pass, Weight, Take, Layout.WellShaped, Layout.IsRoot, NextHash;
    RunStep(g, a, b, proof, NextHash);
    var t := Take(a, b);
    if !g.IsRoot(t.first.pos) {
      var y := if t.sibling.Some? then t.sibling.value.value else proof[0];
      SomeRootFound(g, t.a, t.b + [Item(g.Up(t.first.pos), NextHash(t.first.pos, t.first.value, y))],
                    if t.sibling.Some? then proof else proof[1..]);
    }
  }

  lemma {:induction false} CandidateFound(g: Layout, n: nat, hashes: seq<Hash>, proof: Proof)
    requires Calculable(g, n, Some(hashes), proof) && |hashes| > 0
    ensures |Candidates(g, n, Some(hashes), proof)| > 0
  {
    hide Pass, LayoutFor, Layout.WellShaped, SortEntries;
    SortedNodes(g, n, Some(hashes), proof);
    SortWeakly(Zip(proof.targets, hashes));
    var none: seq<Item<Hash>> := [];
    SomeRootFound(g, ItemsOf(Sorted0(Some(hashes), proof)), none, proof.proof);
  }

  lemma {:induction false} OnlyLeaf(slots: seq<Hash>, hashes: seq<Hash>)
    requires |slots| == 1 && |hashes| > 0
    ensures Proves(slots, hashes, Proof([0], [])) <==> hashes == slots && slots[0] != Empty
  {
    hide LayoutFor, PlanFor;
    var g := ShapeOf(1);
    Shapes(1, 0);
    LayoutFits(g, TreeRows(1), 1);
    AloneAtRoot(g, slots);
    NothingBeside(g);
    assert Elems([0]) == {0};
  }

  lemma {:induction false} AloneAtRoot(g: Layout, slots: seq<Hash>)
    requires LayoutFor(g, TreeRows(1), 1) && |slots| == 1
    ensures At(g, ForestOf(g, slots), 0) == SlotTree(slots, 0)
    ensures g.IsRoot(0) && forall p :: p in g.nodes ==> p == 0
  {
    assert TreeRows(1) == 0 && Pow2(0) == 1;
    forall p: nat
      ensures p in g.nodes <==> p == 0
    {
      LayoutAt(g, 0, 1, p);
      if p == 0 { assert Row(0, 0) == 0 && Shr(1, 0) == 1; }
    }
    assert g.Up(0) == 1;
    AtRoot(g, slots, 0);
    assert Collapse(g, slots, 0) == SlotTree(slots, 0);
  }

  lemma {:induction false} NothingBeside(g: Layout)
    requires g.WellShaped() && g.IsRoot(0) && forall p :: p in g.nodes ==> p == 0
    ensures PlanFor(g, {0}).proof == []
  {
    hide PlanUpTo, Layout.WellShaped, Touched;
    PlanMeaning(g, {0}, g.m);
    var s := PlanFor(g, {0}).proof;
    if |s| > 0 { assert s[0] in s; ProofPosBound(g, {0}, s[0]); }
  }
}
