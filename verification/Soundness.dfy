/** What an accepted proof shows. */
module Soundness {
  // Whatever the proof says about positions, its hashes are those of subtrees of the forest, and deleting with it
  // deletes what is below these subtrees.  When they are hashes of leaves, these leaves are deleted and nothing else.

  import opened Hashes
  import opened Options
  import opened Positions
  import opened Geometry
  import opened Layouts
  import opened Shape
  import opened Entries
  import opened Calculation
  import opened Forests
  import opened Honest
  import opened Deletion
  import opened Sequential
  import opened TreeIndex
  import opened Slots
  import opened Uniqueness
  import opened Stumps
  import opened Terms
  import opened Passes
  import opened Growth
  import opened LeafCounts

  /** The hashes given for the targets at or below `p`. */
  ghost function Claimed(g: Layout, t: map<nat, Hash>, p: nat): set<Hash>
    decreases p
  {
    if p in t then {t[p]}
    else if TouchedBelow(g, t.Keys, p) then Claimed(g, t, g.Left(p)) + Claimed(g, t, g.Right(p))
    else {}
  }

  /** `t` gives leaf hashes to the targets, `t0` none. */
  ghost predicate Claims(g: Layout, t: map<nat, Hash>, t0: map<nat, Hash>) {
    && ValidTargets(g, t.Keys) && t.Keys == t0.Keys
    && forall x :: x in t ==> IsLeafHash(t[x]) && t0[x] == Empty
  }

  /** Above a leaf hash no hash is empty. */
  lemma {:induction false} TouchedNotEmpty(g: Layout, t: map<nat, Hash>, t0: map<nat, Hash>, given: map<nat, Hash>,
                                           p: nat)
    requires Claims(g, t, t0)
    ensures Touched(g, t.Keys, p) ==> Calc(g, t, given, p) != Empty
    ensures !Touched(g, t.Keys, p) ==> Calc(g, t, given, p) == Calc(g, t0, given, p) && Claimed(g, t, p) == {}
    decreases p
  {
    hide IsLeafHash;
    if p in t { assert IsLeafHash(t[p]); LeafNotEmpty(t[p]); }
    else if TouchedBelow(g, t.Keys, p) {
      TouchedNotEmpty(g, t, t0, given, g.Left(p));
      TouchedNotEmpty(g, t, t0, given, g.Right(p));
    }
  }

  /** When a calculation from leaf hashes arrives at the hash of a tree, these leaf hashes are
      in the tree; and without them it arrives at the hash of the tree without them. */
  lemma {:induction false} Bound(g: Layout, t: map<nat, Hash>, t0: map<nat, Hash>, given: map<nat, Hash>, p: nat,
                                 tree: Tree)
    requires Claims(g, t, t0) && CollisionFree()
    requires LeafHashes(tree) && DistinctTree(tree) && Solid(tree) && Calc(g, t, given, p) == Merkle(tree)
    ensures Claimed(g, t, p) <= LeafSet(tree)
    ensures Calc(g, t0, given, p) == Merkle(RemoveHashes(tree, Claimed(g, t, p)))
    decreases p
  {
    hide CollisionFree, IsLeafHash, Touched, ValidTargets, Merkle, Combine, ParentHash, LeafHashes, Solid;
    TouchedNotEmpty(g, t, t0, given, p);
    if p in t {
      LeafTree(tree, t[p]);
      MerkleNil();
    } else if TouchedBelow(g, t.Keys, p) {
      BoundBelow(g, t, t0, given, p, tree);
    } else {
      NotTouched(g, t.Keys, p);
      RemoveNone(tree, {});
    }
  }

  lemma MerkleNil()
    ensures Merkle(Nil) == Empty
  {
  }

  lemma NotTouched(g: Layout, s: set<nat>, p: nat)
    requires p !in s && !TouchedBelow(g, s, p)
    ensures !Touched(g, s, p)
  {
  }

  lemma {:induction false} BoundBelow(g: Layout, t: map<nat, Hash>, t0: map<nat, Hash>, given: map<nat, Hash>, p: nat,
                                      tree: Tree)
    requires Claims(g, t, t0) && CollisionFree() && p !in t && TouchedBelow(g, t.Keys, p)
    requires LeafHashes(tree) && DistinctTree(tree) && Solid(tree) && Calc(g, t, given, p) == Merkle(tree)
    ensures Claimed(g, t, p) <= LeafSet(tree)
    ensures Calc(g, t0, given, p) == Merkle(RemoveHashes(tree, Claimed(g, t, p)))
    decreases p, 0
  {
    hide CollisionFree, IsLeafHash, Touched, Merkle, ParentHash, Calc, Claimed;
    var l, r := g.Left(p), g.Right(p);
    ClaimsBelow(g, t, t0, given, p);
    TouchedNotEmpty(g, t, t0, given, l);
    TouchedNotEmpty(g, t, t0, given, r);
    var cl, cr := Calc(g, t, given, l), Calc(g, t, given, r);
    if cl == Empty {
      assert Claimed(g, t, p) == Claimed(g, t, r);
      Bound(g, t, t0, given, r, tree);
    } else if cr == Empty {
      assert Claimed(g, t, p) == Claimed(g, t, l);
      Bound(g, t, t0, given, l, tree);
    } else {
      SplitTree(tree, cl, cr);
      Bound(g, t, t0, given, l, tree.left);
      Bound(g, t, t0, given, r, tree.right);
      RemoveSame(tree.left, Claimed(g, t, p), Claimed(g, t, l));
      RemoveSame(tree.right, Claimed(g, t, p), Claimed(g, t, r));
      RemoveOk(tree.left, Claimed(g, t, p));
      RemoveOk(tree.right, Claimed(g, t, p));
      MerkleJoin(RemoveHashes(tree.left, Claimed(g, t, p)), RemoveHashes(tree.right, Claimed(g, t, p)));
    }
  }

  lemma ClaimsBelow(g: Layout, t: map<nat, Hash>, t0: map<nat, Hash>, given: map<nat, Hash>, p: nat)
    requires Claims(g, t, t0) && p !in t && TouchedBelow(g, t.Keys, p)
    ensures p >= g.m && g.Left(p) < p && g.Right(p) < p
    ensures Claimed(g, t, p) == Claimed(g, t, g.Left(p)) + Claimed(g, t, g.Right(p))
    ensures Calc(g, t, given, p) == Combine(Calc(g, t, given, g.Left(p)), Calc(g, t, given, g.Right(p)))
    ensures Calc(g, t0, given, p) == Combine(Calc(g, t0, given, g.Left(p)), Calc(g, t0, given, g.Right(p)))
  {
    hide IsLeafHash, Combine;
    g.ChildFacts(p);
  }

  /** The tree of a root of the slots is one the hashes determine. */
  lemma {:induction false} RootTreeOk(g: Layout, slots: seq<Hash>, r: nat)
    requires g.WellShaped() && GoodSlots(slots) && g.IsRoot(r)
    ensures var tree := Collapse(g, slots, r); LeafHashes(tree) && DistinctTree(tree) && Solid(tree)
  {
    hide Collapse, LeafHashes, DistinctTree, Solid, Layout.WellShaped, GoodSlots;
    RootNode(g, r);
    CollapseLeafHashes(g, slots, r);
    CollapseDistinct(g, slots, r);
    CollapseFits(g, slots, r);
  }

  /** The trees of two roots have no leaf in common. */
  lemma {:induction false} RootTreesApart(g: Layout, slots: seq<Hash>, r: nat, s: nat, h: Hash)
    requires g.WellShaped() && GoodSlots(slots) && g.IsRoot(r) && g.IsRoot(s)
    requires h in LeafSet(Collapse(g, slots, r)) && h in LeafSet(Collapse(g, slots, s))
    ensures r == s
  {
    hide Collapse, Layout.WellShaped, GoodSlots, Above, LeafSet;
    if r != s {
      RootNode(g, r);
      RootNode(g, s);
      RootsApart(g, r, s);
      DisjointBlocks(g, slots, r, s);
    }
  }

  /** A proof was matched with some roots. */
  ghost predicate Accepted(g: Layout, slots: seq<Hash>, hashes: seq<Hash>, proof: Proof, s: seq<nat>) {
    && CollisionFree() && GoodSlots(slots)
    && |hashes| == |proof.targets| && Calculable(g, |slots|, Some(hashes), proof)
    && Matches(s, Candidates(g, |slots|, Some(hashes), proof), RootHashes(slots))
  }

  function HashOf(x: Term): Hash {
    x.hash
  }

  function LeftOf(x: Term): Hash {
    x.left
  }

  /** The targets of a proof, as terms. */
  ghost function TargetTerms(hashes: seq<Hash>, proof: Proof): (r: seq<Item<Term>>)
    requires |hashes| == |proof.targets|
    ensures |r| == |Sorted0(Some(hashes), proof)|
    ensures forall i :: 0 <= i < |r| ==> r[i] == Item(Sorted0(Some(hashes), proof)[i].pos,
                                                      Target(Sorted0(Some(hashes), proof)[i].hash))
  {
    var sorted := Sorted0(Some(hashes), proof);
    seq(|sorted|, i requires 0 <= i < |sorted| => Item(sorted[i].pos, Target(sorted[i].hash)))
  }

  lemma {:induction false} TermsInNodes(g: Layout, n: nat, hashes: seq<Hash>, proof: Proof)
    requires InForestTargets(g, n, Some(hashes), proof)
    ensures |hashes| == |proof.targets| && g.WellShaped() && InNodes(g, TargetTerms(hashes, proof))
  {
    hide LayoutFor, Sorted0, Layout.WellShaped;
    SortedNodes(g, n, Some(hashes), proof);
    var a, b := TargetTerms(hashes, proof), ItemsOf(Sorted0(Some(hashes), proof));
    forall i | 0 <= i < |a|
      ensures a[i].pos in g.nodes
    {
      assert b[i].pos in g.nodes;
    }
  }

  /** The terms at the roots. */
  ghost function TermRun(g: Layout, n: nat, hashes: seq<Hash>, proof: Proof): Option<seq<Term>>
    requires InForestTargets(g, n, Some(hashes), proof)
  {
    TermsInNodes(g, n, hashes, proof);
    Pass(g, TargetTerms(hashes, proof), [], MapValues(proof.proof, Given), NextTerm)
  }

  /** With the hashes and without, the pass goes the same way: it arrives at the two hashes of one list of terms. */
  lemma {:induction false} BothRuns(g: Layout, n: nat, hashes: seq<Hash>, proof: Proof)
    requires Calculable(g, n, Some(hashes), proof)
    ensures |hashes| == |proof.targets| && Calculable(g, n, None, proof) && TermRun(g, n, hashes, proof).Some?
    ensures Run(g, n, Some(hashes), proof) == Some(MapValues(TermRun(g, n, hashes, proof).value, HashOf))
    ensures Run(g, n, None, proof) == Some(MapValues(TermRun(g, n, hashes, proof).value, LeftOf))
  {
    hide LayoutFor, Sorted0, Layout.WellShaped, Pass, Weight, NextHash;
    TermsInNodes(g, n, hashes, proof);
    SortedNodes(g, n, Some(hashes), proof);
    SortedNodes(g, n, None, proof);
    var a, given := TargetTerms(hashes, proof), MapValues(proof.proof, Given);
    var none: seq<Item<Term>> := [];
    RunMap(g, a, none, given, NextTerm, HashOf, NextHash);
    RunMap(g, a, none, given, NextTerm, LeftOf, NextHash);
    SortedTerms(hashes, proof);
    assert MapValues(given, HashOf) == proof.proof && MapValues(given, LeftOf) == proof.proof;
    assert MapItems(none, HashOf) == [] && MapItems(none, LeftOf) == [];
  }

  lemma {:induction false} SortedTerms(hashes: seq<Hash>, proof: Proof)
    requires |hashes| == |proof.targets|
    ensures MapItems(TargetTerms(hashes, proof), HashOf) == ItemsOf(Sorted0(Some(hashes), proof))
    ensures MapItems(TargetTerms(hashes, proof), LeftOf) == ItemsOf(Sorted0(None, proof))
  {
    hide SortEntries;
    var x, y := Zip(proof.targets, hashes), Zip(proof.targets, TargetHashes(None, proof));
    assert PositionsOf(x) == PositionsOf(y);
    SortSamePlaces(x, y);
    SortWeakly(x);
    SortWeakly(y);
    var sorted := Sorted0(None, proof);
    assert forall i :: 0 <= i < |sorted| ==> sorted[i].pos == PositionsOf(sorted)[i];
    forall i | 0 <= i < |sorted|
      ensures sorted[i].hash == Empty
    {
      assert sorted[i] in sorted && sorted[i] in y;
      var k :| 0 <= k < |y| && y[k] == sorted[i];
    }
  }

  /** What is claimed for the targets is what the proof names. */
  lemma {:induction false} TermClaims(hashes: seq<Hash>, proof: Proof, h: Hash)
    requires CollisionFree() && |hashes| == |proof.targets|
    ensures ClaimedBy(TargetTerms(hashes, proof), h) <==> h in HashSet(hashes) && h != Empty
    ensures AllBounded(TargetTerms(hashes, proof)) && AllGiven(MapValues(proof.proof, Given))
  {
    hide CollisionFree, SortEntries, Bounded;
    var x := Zip(proof.targets, hashes);
    SortWeakly(x);
    var sorted, a := Sorted0(Some(hashes), proof), TargetTerms(hashes, proof);
    forall i | 0 <= i < |a|
      ensures Bounded(a[i].value)
    {
      TargetBounded(sorted[i].hash);
    }
    forall i | 0 <= i < |proof.proof|
      ensures Bounded(Given(proof.proof[i]))
    {
      GivenBounded(proof.proof[i]);
    }
    if ClaimedBy(a, h) {
      var i :| 0 <= i < |a| && h in a[i].value.claimed;
      assert sorted[i] in sorted && sorted[i] in x;
      var k :| 0 <= k < |x| && x[k] == sorted[i];
      assert hashes[k] in hashes;
    }
    if h in HashSet(hashes) && h != Empty {
      var k :| 0 <= k < |hashes| && hashes[k] == h;
      assert x[k] in x && x[k] in sorted;
      var i :| 0 <= i < |sorted| && sorted[i] == x[k];
      assert h in a[i].value.claimed;
    }
  }

  /** The tree of the root with an index. */
  ghost function TreeAt(g: Layout, slots: seq<Hash>, x: nat): Tree
    requires x < |RootList(|slots|, TreeRows(|slots|), 0)|
  {
    Collapse(g, slots, RootList(|slots|, TreeRows(|slots|), 0)[x])
  }

  /** What an accepted proof consists of. */
  lemma {:induction false} AcceptedTerms(g: Layout, slots: seq<Hash>, hashes: seq<Hash>, proof: Proof, s: seq<nat>)
    requires Accepted(g, slots, hashes, proof, s)
    ensures g.WellShaped() && LayoutFor(g, TreeRows(|slots|), |slots|) && GoodSlots(slots) && CollisionFree()
    ensures |hashes| == |proof.targets| && Calculable(g, |slots|, None, proof) &&
            InForestTargets(g, |slots|, Some(hashes), proof)
    ensures TermRun(g, |slots|, hashes, proof).Some?
    ensures var terms := TermRun(g, |slots|, hashes, proof).value;
            && |terms| == |s| == |Candidates(g, |slots|, None, proof)|
            && (forall h :: ClaimedIn(terms, h) <==> h in HashSet(hashes) && h != Empty)
            && forall j :: 0 <= j < |s| ==>
                 && s[j] < |RootList(|slots|, TreeRows(|slots|), 0)| && Bounded(terms[j]) &&
                    GoodTree(TreeAt(g, slots, s[j]))
                 && Merkle(TreeAt(g, slots, s[j])) == terms[j].hash &&
                    terms[j].left == Candidates(g, |slots|, None, proof)[j]
  {
    hide LayoutFor, Layout.WellShaped, Pass, Weight, GoodSlots, CollisionFree, Bounded, RootHashes, RootList, Collapse,
         Merkle, TargetTerms, AllBounded, AllGiven, ClaimedIn, ClaimedBy, HashSet, Calculable, LeafHashes, DistinctTree,
         Solid, Layout.IsRoot;
    var n := |slots|;
    CalculableParts(g, n, hashes, proof);
    LayoutFits(g, TreeRows(n), n);
    BothRuns(g, n, hashes, proof);
    TermsInNodes(g, n, hashes, proof);
    var terms := TermRun(g, n, hashes, proof).value;
    var none: seq<Item<Term>> := [];
    TermClaims(hashes, proof, Empty);
    NothingBounded(none);
    forall h
      ensures ClaimedIn(terms, h) <==> h in HashSet(hashes) && h != Empty
    {
      TermClaims(hashes, proof, h);
      NoClaims(none, none, h);
      RootTerms(g, TargetTerms(hashes, proof), none, MapValues(proof.proof, Given), h);
    }
    RootTerms(g, TargetTerms(hashes, proof), none, MapValues(proof.proof, Given), Empty);
    RootHashAt(g, TreeRows(n), slots);
    forall j | 0 <= j < |s|
      ensures s[j] < |RootList(n, TreeRows(n), 0)| && GoodTree(TreeAt(g, slots, s[j])) &&
              Merkle(TreeAt(g, slots, s[j])) == terms[j].hash
    {
      RootTreeOk(g, slots, RootList(n, TreeRows(n), 0)[s[j]]);
    }
  }

  lemma NothingBounded(none: seq<Item<Term>>)
    requires none == []
    ensures AllBounded(none)
  {
  }

  lemma CalculableParts(g: Layout, n: nat, hashes: seq<Hash>, proof: Proof)
    requires Calculable(g, n, Some(hashes), proof)
    ensures InForestTargets(g, n, Some(hashes), proof) && LayoutFor(g, TreeRows(n), n)
  {
    hide LayoutFor, Run;
  }

  /** Every hash that is claimed is that of a subtree of the root its term was matched with. */
  lemma {:induction false} ClaimedWhere(g: Layout, slots: seq<Hash>, hashes: seq<Hash>, proof: Proof, s: seq<nat>,
                                        h: Hash)
    returns (j: nat)
    requires Accepted(g, slots, hashes, proof, s) && h in HashSet(hashes) && h != Empty
    ensures |hashes| == |proof.targets| && InForestTargets(g, |slots|, Some(hashes), proof) &&
            TermRun(g, |slots|, hashes, proof).Some?
    ensures j < |s| && j < |TermRun(g, |slots|, hashes, proof).value| &&
            h in TermRun(g, |slots|, hashes, proof).value[j].claimed
    ensures s[j] < |RootList(|slots|, TreeRows(|slots|), 0)| && h in SubHashes(TreeAt(g, slots, s[j]))
  {
    hide Accepted, LayoutFor, Layout.WellShaped, TermRun, GoodSlots, CollisionFree, Bounded, RootList, TreeAt, HashSet,
         Calculable, GoodTree, Merkle, SubHashes;
    AcceptedTerms(g, slots, hashes, proof, s);
    var terms := TermRun(g, |slots|, hashes, proof).value;
    assert ClaimedIn(terms, h);
    j :| 0 <= j < |terms| && h in terms[j].claimed;
    BoundedAt(terms[j], TreeAt(g, slots, s[j]));
    CutsWithin(TreeAt(g, slots, s[j]), terms[j].claimed);
  }

  /** A hash is that of a subtree of one root at most. */
  lemma {:induction false} OneTreeWith(g: Layout, slots: seq<Hash>, x: nat, y: nat, h: Hash)
    requires CollisionFree() && LayoutFor(g, TreeRows(|slots|), |slots|) && GoodSlots(slots) && h != Empty
    requires x < |RootList(|slots|, TreeRows(|slots|), 0)| && y < |RootList(|slots|, TreeRows(|slots|), 0)|
    requires h in SubHashes(TreeAt(g, slots, x)) && h in SubHashes(TreeAt(g, slots, y))
    ensures x == y
  {
    hide LayoutFor, Layout.WellShaped, GoodSlots, CollisionFree, RootList, Collapse, SubHashes, LeafSet, LeafHashes,
         DistinctTree, Solid, Layout.IsRoot, RootHashes;
    var roots := RootList(|slots|, TreeRows(|slots|), 0);
    LayoutFits(g, TreeRows(|slots|), |slots|);
    RootHashAt(g, TreeRows(|slots|), slots);
    RootTreeOk(g, slots, roots[x]);
    RootTreeOk(g, slots, roots[y]);
    var leaf := SharedLeaf(TreeAt(g, slots, x), TreeAt(g, slots, y), h);
    RootTreesApart(g, slots, roots[x], roots[y], leaf);
    OneIndex(roots, x, y);
  }

  lemma OneIndex(roots: seq<nat>, x: nat, y: nat)
    requires Descending(roots) && x < |roots| && y < |roots| && roots[x] == roots[y]
    ensures x == y
  {
  }

  /** There is a subtree with this hash in the forest of the slots. */
  ghost predicate InTrees(g: Layout, slots: seq<Hash>, h: Hash) {
    exists x: nat :: x < |RootList(|slots|, TreeRows(|slots|), 0)| && h in SubHashes(TreeAt(g, slots, x))
  }

  /** The hashes of an accepted proof are those of subtrees, and leaf hashes those of leaves, of the accumulator. */
  lemma {:induction false} Sound(g: Layout, slots: seq<Hash>, hashes: seq<Hash>, proof: Proof, s: seq<nat>)
    requires Accepted(g, slots, hashes, proof, s)
    ensures forall i :: 0 <= i < |hashes| && hashes[i] != Empty ==> InTrees(g, slots, hashes[i])
    ensures forall i :: 0 <= i < |hashes| && IsLeafHash(hashes[i]) ==> hashes[i] in slots
  {
    hide Accepted, RootList, TreeAt, TermRun, LayoutFor, GoodSlots, CollisionFree, Layout.WellShaped, SubHashes,
         IsLeafHash, Calculable;
    AcceptedTerms(g, slots, hashes, proof, s);
    forall i | 0 <= i < |hashes| && hashes[i] != Empty
      ensures InTrees(g, slots, hashes[i])
      ensures IsLeafHash(hashes[i]) ==> hashes[i] in slots
    {
      assert hashes[i] in HashSet(hashes);
      var j := ClaimedWhere(g, slots, hashes, proof, s, hashes[i]);
      if IsLeafHash(hashes[i]) { LeafHashInSlots(g, slots, s[j], hashes[i]); }
    }
    forall i | 0 <= i < |hashes| && IsLeafHash(hashes[i])
      ensures hashes[i] != Empty
    {
      LeafNotEmpty(hashes[i]);
    }
  }

  /** A leaf hash among the subtrees of a root is that of a leaf. */
  lemma {:induction false} LeafHashInSlots(g: Layout, slots: seq<Hash>, x: nat, h: Hash)
    requires LayoutFor(g, TreeRows(|slots|), |slots|) && GoodSlots(slots) && IsLeafHash(h)
    requires x < |RootList(|slots|, TreeRows(|slots|), 0)| && h in SubHashes(TreeAt(g, slots, x))
    ensures h in slots && h in LeafSet(TreeAt(g, slots, x))
  {
    hide LayoutFor, Layout.WellShaped, GoodSlots, RootList, Collapse, SubHashes, IsLeafHash, LeafHashes, DistinctTree,
         Solid, Layout.IsRoot, RootHashes;
    var root := RootList(|slots|, TreeRows(|slots|), 0)[x];
    LayoutFits(g, TreeRows(|slots|), |slots|);
    RootHashAt(g, TreeRows(|slots|), slots);
    RootTreeOk(g, slots, root);
    var u := SubTreeOf(TreeAt(g, slots, x), h);
    LeafTree(u, h);
    RootNode(g, root);
    CollapseLeaves(g, slots, root, h);
    var k: nat :| SlotBelow(g, slots, root, h, k);
    assert slots[k] == h;
  }

  /** Some order by position of the targets with their hashes. */
  ghost predicate IsOrder(s: seq<Entry>, hashes: seq<Hash>, proof: Proof)
    requires |hashes| == |proof.targets|
  {
    WeaklySorted(s) && multiset(s) == multiset(Zip(proof.targets, hashes))
  }

  /** However a sort orders entries with the same position, the calculation is that of a proof with the same hashes, so
      what is said of accepted proofs holds. */
  lemma {:induction false} AnyOrder(g: Layout, slots: seq<Hash>, hashes: seq<Hash>, proof: Proof, s: seq<Entry>,
                                    x: seq<nat>)
    requires CollisionFree() && GoodSlots(slots) && |hashes| == |proof.targets|
    requires InForestTargets(g, |slots|, Some(hashes), proof) && g.WellShaped() && IsOrder(s, hashes, proof)
    ensures InNodes(g, ItemsOf(s)) && HashSet(HashesOf(s)) == HashSet(hashes)
    ensures var found := Pass(g, ItemsOf(s), [], proof.proof, NextHash);
            found.Some? && Matches(x, found.value, RootHashes(slots)) ==>
              && Accepted(g, slots, HashesOf(s), Proof(PositionsOf(s), proof.proof), x)
              && (forall i :: 0 <= i < |hashes| && hashes[i] != Empty ==> InTrees(g, slots, hashes[i]))
              && (forall i :: 0 <= i < |hashes| && IsLeafHash(hashes[i]) ==> hashes[i] in slots)
  {
    hide CollisionFree, GoodSlots, LayoutFor, Pass, Weight, Layout.WellShaped, SortEntries, IsLeafHash, InTrees,
         RootHashes, Matches;
    var p := Proof(PositionsOf(s), proof.proof);
    var z := Zip(proof.targets, hashes);
    SameEntries(s, z);
    assert Zip(p.targets, HashesOf(s)) == s;
    SortedStays(s);
    forall i | 0 <= i < |s|
      ensures s[i].pos in g.nodes
    {
      assert s[i] in s && s[i] in z;
      var j :| 0 <= j < |z| && z[j] == s[i];
    }
    SameHashes(s, hashes, z);
    var found := Pass(g, ItemsOf(s), [], proof.proof, NextHash);
    if found.Some? && Matches(x, found.value, RootHashes(slots)) {
      assert Run(g, |slots|, Some(HashesOf(s)), p) == found;
      Sound(g, slots, HashesOf(s), p, x);
      forall i | 0 <= i < |hashes|
        ensures hashes[i] != Empty ==> InTrees(g, slots, hashes[i])
        ensures IsLeafHash(hashes[i]) ==> hashes[i] in slots
      {
        assert hashes[i] in HashSet(HashesOf(s));
        var j :| 0 <= j < |s| && HashesOf(s)[j] == hashes[i];
      }
    }
  }

  lemma SameEntries(s: seq<Entry>, z: seq<Entry>)
    requires multiset(s) == multiset(z)
    ensures |s| == |z| && forall e :: e in s <==> e in z
  {
    assert |multiset(s)| == |multiset(z)|;
    forall e
      ensures e in s <==> e in z
    {
      assert e in multiset(s) <==> e in multiset(z);
    }
  }

  lemma {:induction false} SameHashes(s: seq<Entry>, hashes: seq<Hash>, z: seq<Entry>)
    requires |z| == |hashes| && (forall i :: 0 <= i < |z| ==> z[i].hash == hashes[i]) && forall e :: e in s <==> e in z
    ensures HashSet(HashesOf(s)) == HashSet(hashes)
  {
    forall h
      ensures h in HashesOf(s) <==> h in hashes
    {
      if h in HashesOf(s) {
        var i :| 0 <= i < |s| && s[i].hash == h;
        assert s[i] in s && s[i] in z;
      }
      if h in hashes {
        var i :| 0 <= i < |z| && z[i].hash == h;
        assert z[i] in z && z[i] in s;
        var j :| 0 <= j < |s| && s[j] == z[i];
        assert HashesOf(s)[j] == h;
      }
    }
  }

  /** The leaves of the slots that are below subtrees with one of the hashes. */
  ghost function CoveredBy(g: Layout, slots: seq<Hash>, k: set<Hash>): set<Hash> {
    set x: nat, h | x < |RootList(|slots|, TreeRows(|slots|), 0)| && h in Covered(TreeAt(g, slots, x), k) :: h
  }

  lemma {:induction false} CoveredNoEmpty(t: Tree, k: set<Hash>)
    requires GoodTree(t)
    ensures Covered(t, k) == Covered(t, k - {Empty})
    decreases t
  {
    hide IsLeafHash;
    GoodOk(t);
    MerkleEmpty(t);
    if t.Node? {
      GoodParts(t);
      CoveredNoEmpty(t.left, k);
      CoveredNoEmpty(t.right, k);
    }
  }

  /** What is left of one root. */
  lemma {:induction false} RootLeft(g: Layout, slots: seq<Hash>, k: set<Hash>, x: nat)
    requires LayoutFor(g, TreeRows(|slots|), |slots|) && GoodSlots(slots) &&
             x < |RootList(|slots|, TreeRows(|slots|), 0)|
    ensures RemoveHashes(TreeAt(g, slots, x), CoveredBy(g, slots, k)) ==
            RemoveHashes(TreeAt(g, slots, x), Covered(TreeAt(g, slots, x), k))
  {
    hide LayoutFor, Layout.WellShaped, GoodSlots, RootList, Collapse, Covered, LeafSet, RemoveHashes, Layout.IsRoot,
         RootHashes;
    var t, roots := TreeAt(g, slots, x), RootList(|slots|, TreeRows(|slots|), 0);
    LayoutFits(g, TreeRows(|slots|), |slots|);
    RootHashAt(g, TreeRows(|slots|), slots);
    forall h | h in LeafSet(t)
      ensures h in CoveredBy(g, slots, k) <==> h in Covered(t, k)
    {
      if h in CoveredBy(g, slots, k) {
        var y: nat :| y < |roots| && h in Covered(TreeAt(g, slots, y), k);
        CoveredLeaves(TreeAt(g, slots, y), k);
        RootTreesApart(g, slots, roots[x], roots[y], h);
      }
    }
    RemoveSame(t, CoveredBy(g, slots, k), Covered(t, k));
  }

  /** The claims that matter for a root: those of the term matched with it, or none. */
  lemma {:induction false} ClaimsForRoot(g: Layout, slots: seq<Hash>, hashes: seq<Hash>, proof: Proof, s: seq<nat>,
                                         x: nat)
    requires Accepted(g, slots, hashes, proof, s) && x < |RootList(|slots|, TreeRows(|slots|), 0)|
    ensures |hashes| == |proof.targets| && InForestTargets(g, |slots|, Some(hashes), proof) &&
            TermRun(g, |slots|, hashes, proof).Some?
    ensures |TermRun(g, |slots|, hashes, proof).value| == |s|
    ensures x !in s ==> Covered(TreeAt(g, slots, x), HashSet(hashes)) == {}
    ensures forall j :: 0 <= j < |s| && s[j] == x ==>
              Covered(TreeAt(g, slots, x), HashSet(hashes)) ==
                  Covered(TreeAt(g, slots, x), TermRun(g, |slots|, hashes, proof).value[j].claimed)
  {
    hide Accepted, LayoutFor, Layout.WellShaped, TermRun, GoodSlots, CollisionFree, Bounded, RootList, Collapse,
         HashSet, Calculable, Merkle, SubHashes, Covered, LeafHashes, DistinctTree, Solid, Layout.IsRoot, RootHashes;
    AcceptedTerms(g, slots, hashes, proof, s);
    RootHashAt(g, TreeRows(|slots|), slots);
    RootTreeOk(g, slots, RootList(|slots|, TreeRows(|slots|), 0)[x]);
    var t, k, terms := TreeAt(g, slots, x), HashSet(hashes) - {Empty}, TermRun(g, |slots|, hashes, proof).value;
    CoveredNoEmpty(t, HashSet(hashes));
    if x !in s {
      forall h | h in k
        ensures h !in SubHashes(t)
      {
        var j := ClaimedWhere(g, slots, hashes, proof, s, h);
        if h in SubHashes(t) { OneTreeWith(g, slots, x, s[j], h); }
      }
      CoveredSame(t, k, {});
      CoveredNone(t);
    }
    forall j | 0 <= j < |s| && s[j] == x
      ensures Covered(t, k) == Covered(t, terms[j].claimed)
    {
      forall h | h in SubHashes(t)
        ensures h in k <==> h in terms[j].claimed
      {
        if h in k {
          var i := ClaimedWhere(g, slots, hashes, proof, s, h);
          OneTreeWith(g, slots, x, s[i], h);
          MatchedOnce(g, slots, hashes, proof, s, i, j);
        }
        if h in terms[j].claimed { assert ClaimedIn(terms, h); }
      }
      assert k * SubHashes(t) == terms[j].claimed * SubHashes(t);
      CoveredSame(t, k, terms[j].claimed);
    }
  }

  lemma MatchedOnce(g: Layout, slots: seq<Hash>, hashes: seq<Hash>, proof: Proof, s: seq<nat>, i: nat, j: nat)
    requires Accepted(g, slots, hashes, proof, s) && i < |s| && j < |s| && s[i] == s[j]
    ensures i == j
  {
    hide CollisionFree, GoodSlots, Calculable, Candidates, RootHashes;
  }

  /** The roots an accepted proof leaves are those of the slots without everything that is below a subtree it names. */
  lemma {:induction false} DeletedRoots(g: Layout, slots: seq<Hash>, hashes: seq<Hash>, proof: Proof, s: seq<nat>,
                                        after: seq<Hash>)
    requires Accepted(g, slots, hashes, proof, s) && Calculable(g, |slots|, None, proof)
    requires Overwritten(RootHashes(slots), s, Candidates(g, |slots|, None, proof), after)
    ensures after == RootHashes(Erase(slots, CoveredBy(g, slots, HashSet(hashes))))
  {
    hide Accepted, RootList, Collapse, TermRun, LayoutFor, GoodSlots, CollisionFree, Layout.WellShaped, LeafSet,
         RootHashes, Candidates, Erase, RemoveHashes, Merkle, Layout.IsRoot, CoveredBy, Covered, Calculable, HashSet,
         GoodTree, Bounded;
    var n, dels := |slots|, CoveredBy(g, slots, HashSet(hashes));
    AcceptedTerms(g, slots, hashes, proof, s);
    RootHashAt(g, TreeRows(n), slots);
    RootHashAt(g, TreeRows(n), Erase(slots, dels));
    var roots := RootList(n, TreeRows(n), 0);
    forall x | 0 <= x < |after|
      ensures after[x] == RootHashes(Erase(slots, dels))[x]
    {
      RootAfter(g, slots, hashes, proof, s, after, x);
      CollapseErase(g, slots, dels, roots[x]);
      RootLeft(g, slots, HashSet(hashes), x);
    }
  }

  lemma {:induction false} RootAfter(g: Layout, slots: seq<Hash>, hashes: seq<Hash>, proof: Proof, s: seq<nat>,
                                     after: seq<Hash>, x: nat)
    requires Accepted(g, slots, hashes, proof, s) && Calculable(g, |slots|, None, proof)
    requires Overwritten(RootHashes(slots), s, Candidates(g, |slots|, None, proof), after)
    requires x < |after| && x < |RootList(|slots|, TreeRows(|slots|), 0)|
    ensures after[x] == Merkle(RemoveHashes(TreeAt(g, slots, x), Covered(TreeAt(g, slots, x), HashSet(hashes))))
  {
    hide Accepted, RootList, Collapse, TermRun, LayoutFor, GoodSlots, CollisionFree, Layout.WellShaped, LeafSet,
         RootHashes, Candidates, RemoveHashes, Merkle, Layout.IsRoot, Covered, Calculable, HashSet, Bounded, LeafHashes,
         DistinctTree, Solid;
    AcceptedTerms(g, slots, hashes, proof, s);
    RootHashAt(g, TreeRows(|slots|), slots);
    ClaimsForRoot(g, slots, hashes, proof, s, x);
    var t := TreeAt(g, slots, x);
    if x in s {
      var j :| 0 <= j < |s| && s[j] == x;
      BoundedAt(TermRun(g, |slots|, hashes, proof).value[j], t);
    } else {
      RootTreeOk(g, slots, RootList(|slots|, TreeRows(|slots|), 0)[x]);
      RemoveNone(t, {});
    }
  }

  /** With leaf hashes, only these leaves are below the subtrees named. */
  lemma {:induction false} CoveredByLeaves(t: Tree, k: set<Hash>)
    requires forall h :: h in k ==> h == Empty || IsLeafHash(h)
    requires GoodTree(t)
    ensures Covered(t, k) == LeafSet(t) * k
    decreases t
  {
    hide IsLeafHash;
    if t.Node? {
      GoodParts(t);
      InnerNotLeaf(t);
      CoveredByLeaves(t.left, k);
      CoveredByLeaves(t.right, k);
    }
  }

  lemma InnerNotLeaf(t: Tree)
    requires t.Node?
    ensures !IsLeafHash(Merkle(t)) && Merkle(t) != Empty
  {
  }

  /** Then exactly the hashes named are deleted. */
  lemma {:induction false} ErasesLeaves(g: Layout, slots: seq<Hash>, k: set<Hash>)
    requires LayoutFor(g, TreeRows(|slots|), |slots|) && GoodSlots(slots) && forall h :: h in k ==>
               h == Empty || IsLeafHash(h)
    ensures Erase(slots, CoveredBy(g, slots, k)) == Erase(slots, k)
  {
    hide LayoutFor, GoodSlots, RootList, Collapse, Covered, LeafSet, IsLeafHash, Layout.WellShaped, LeafHashes,
         DistinctTree, Solid, Layout.IsRoot, RootHashes;
    var roots := RootList(|slots|, TreeRows(|slots|), 0);
    LayoutFits(g, TreeRows(|slots|), |slots|);
    RootHashAt(g, TreeRows(|slots|), slots);
    forall i | 0 <= i < |slots| && slots[i] != Empty
      ensures slots[i] in CoveredBy(g, slots, k) <==> slots[i] in k
    {
      var x := LeafInTree(g, slots, i);
      RootTreeOk(g, slots, roots[x]);
      CoveredByLeaves(TreeAt(g, slots, x), k);
      if slots[i] in k { CoveredMember(g, slots, k, x, slots[i]); }
      if slots[i] in CoveredBy(g, slots, k) {
        var y: nat :| y < |roots| && slots[i] in Covered(TreeAt(g, slots, y), k);
        RootTreeOk(g, slots, roots[y]);
        CoveredByLeaves(TreeAt(g, slots, y), k);
      }
    }
    assert Erase(slots, CoveredBy(g, slots, k)) == Erase(slots, k);
  }

  /** The leaf of every slot is in the tree of a root. */
  lemma {:induction false} LeafInTree(g: Layout, slots: seq<Hash>, i: nat) returns (x: nat)
    requires LayoutFor(g, TreeRows(|slots|), |slots|) && i < |slots| && slots[i] != Empty
    ensures x < |RootList(|slots|, TreeRows(|slots|), 0)| && slots[i] in LeafSet(TreeAt(g, slots, x))
  {
    hide LayoutFor, RootList, Collapse, LeafSet, Layout.WellShaped, Layout.IsRoot, RootOf, Above, RootHashes;
    var rows := TreeRows(|slots|);
    LayoutFits(g, rows, |slots|);
    RootHashAt(g, rows, slots);
    LeafNode(g, rows, |slots|, i);
    RootOfFacts(g, i);
    RootNode(g, RootOf(g, i));
    SlotInTree(g, slots, RootOf(g, i), i);
    x := IndexOf(RootList(|slots|, rows, 0), RootOf(g, i));
  }

  /** Of two hashes named for one root, neither is inside the other. */
  lemma {:induction false} CutsOnce(t: Tree, k: set<Hash>, u: Tree, a: Hash)
    requires CollisionFree() && GoodTree(t) && Cuts(t, k) && GoodTree(u) && Merkle(u) in k && a in k &&
             a in LeafSet(u) && IsLeafHash(a)
    ensures a == Merkle(u)
    decreases t
  {
    hide CollisionFree, IsLeafHash, GoodTree;
    if Merkle(t) !in k {
      GoodParts(t);
      var l, r := k * SubHashes(t.left), k * SubHashes(t.right);
      CutsWithin(t, k);
      var onLeft := Merkle(u) in l;
      var side := if onLeft then t.left else t.right;
      var v := SubTreeOf(side, Merkle(u));
      GoodHashes(u);
      GoodHashes(v);
      MerkleInjective(u, v);
      if onLeft == (a in l) && (onLeft || a in r) {
        CutsOnce(side, if onLeft then l else r, u, a);
      } else {
        var other := if onLeft then t.right else t.left;
        var w := SubTreeOf(other, a);
        LeafTree(w, a);
      }
    }
  }

  lemma {:induction false} CoversLeaves(t: Tree, k: set<Hash>, u: Tree)
    requires CollisionFree() && GoodTree(t) && GoodTree(u) && Merkle(u) in k && Merkle(u) in SubHashes(t)
    ensures LeafSet(u) <= Covered(t, k)
    decreases t
  {
    hide CollisionFree, IsLeafHash, GoodTree;
    if Merkle(t) in k {
      var v := SubTreeOf(t, Merkle(u));
      GoodHashes(u);
      GoodHashes(v);
      MerkleInjective(u, v);
    } else {
      GoodParts(t);
      CoversLeaves(if Merkle(u) in SubHashes(t.left) then t.left else t.right, k, u);
    }
  }

  lemma {:induction false} LeavesLeft(t: Tree, k: set<Hash>)
    ensures LeafSet(RemoveHashes(t, k)) == LeafSet(t) - k
    decreases t
  {
    if t.Node? {
      LeavesLeft(t.left, k);
      LeavesLeft(t.right, k);
      LeafSetJoin(RemoveHashes(t.left, k), RemoveHashes(t.right, k));
    }
  }

  lemma {:induction false} LeafHashesLeft(t: Tree, k: set<Hash>)
    requires LeafHashes(t)
    ensures LeafHashes(RemoveHashes(t, k))
    decreases t
  {
    hide IsLeafHash;
    if t.Node? {
      LeafHashesLeft(t.left, k);
      LeafHashesLeft(t.right, k);
    }
  }

  /** When a hash is not that of a leaf, a leaf that is not named is deleted. */
  lemma {:induction false} DeletesMore(g: Layout, slots: seq<Hash>, hashes: seq<Hash>, proof: Proof, s: seq<nat>,
                                       h: Hash)
    returns (x: nat, a: Hash)
    requires Accepted(g, slots, hashes, proof, s) && h in HashSet(hashes) && h != Empty && h !in slots
    ensures x < |RootList(|slots|, TreeRows(|slots|), 0)| && a in LeafSet(TreeAt(g, slots, x)) && a !in HashSet(hashes)
    ensures a in Covered(TreeAt(g, slots, x), HashSet(hashes))
  {
    hide Accepted, LayoutFor, Layout.WellShaped, TermRun, GoodSlots, CollisionFree, Bounded, RootList, Collapse,
         HashSet, Calculable, Merkle, SubHashes, Covered, LeafHashes, DistinctTree, Solid, Layout.IsRoot, RootHashes,
         IsLeafHash, Cuts;
    AcceptedTerms(g, slots, hashes, proof, s);
    var j := ClaimedWhere(g, slots, hashes, proof, s, h);
    x := s[j];
    var t, terms := TreeAt(g, slots, x), TermRun(g, |slots|, hashes, proof).value;
    var u := SubTreeOf(t, h);
    BoundedAt(terms[j], t);
    ClaimsForRoot(g, slots, hashes, proof, s, x);
    CoversLeaves(t, terms[j].claimed, u);
    SubTreeNotNil(u);
    a :| a in LeafSet(u);
    LeafOfTree(g, slots, x, a);
    if a in HashSet(hashes) {
      LeafNotEmpty(a);
      LeafIsSub(t, a);
      var i := ClaimedWhere(g, slots, hashes, proof, s, a);
      OneTreeWith(g, slots, x, s[i], a);
      MatchedOnce(g, slots, hashes, proof, s, i, j);
      CutsOnce(t, terms[j].claimed, u, a);
    }
  }

  lemma {:induction false} SubTreeNotNil(u: Tree)
    requires GoodTree(u) && Merkle(u) != Empty
    ensures LeafSet(u) != {}
  {
    hide IsLeafHash;
    LeafSetEmpty(u);
    if u.Nil? { MerkleNil(); }
  }

  lemma {:induction false} LeafIsSub(t: Tree, a: Hash)
    requires a in LeafSet(t)
    ensures a in SubHashes(t)
    decreases t
  {
    if t.Node? { LeafIsSub(if a in LeafSet(t.left) then t.left else t.right, a); }
  }

  lemma {:induction false} LeafOfTree(g: Layout, slots: seq<Hash>, x: nat, a: Hash)
    requires LayoutFor(g, TreeRows(|slots|), |slots|) && GoodSlots(slots) &&
             x < |RootList(|slots|, TreeRows(|slots|), 0)|
    requires a in LeafSet(TreeAt(g, slots, x))
    ensures a in slots && IsLeafHash(a)
  {
    hide LayoutFor, Layout.WellShaped, RootList, Collapse, LeafSet, Layout.IsRoot, RootHashes, IsLeafHash, Above;
    LayoutFits(g, TreeRows(|slots|), |slots|);
    RootHashAt(g, TreeRows(|slots|), slots);
    var root := RootList(|slots|, TreeRows(|slots|), 0)[x];
    RootNode(g, root);
    CollapseLeaves(g, slots, root, a);
    var k: nat :| SlotBelow(g, slots, root, a, k);
    assert slots[k] == a;
  }

  /** Exactly the hashes named are deleted if and only if each of them is that of a leaf. */
  lemma {:induction false} ErasesExactly(g: Layout, slots: seq<Hash>, hashes: seq<Hash>, proof: Proof, s: seq<nat>,
                                         after: seq<Hash>)
    requires Accepted(g, slots, hashes, proof, s) && Calculable(g, |slots|, None, proof)
    requires Overwritten(RootHashes(slots), s, Candidates(g, |slots|, None, proof), after)
    ensures after == RootHashes(Erase(slots, HashSet(hashes))) <==>
            forall i :: 0 <= i < |hashes| ==> hashes[i] == Empty || hashes[i] in slots
  {
    hide Accepted, RootList, Collapse, LayoutFor, GoodSlots, CollisionFree, Layout.WellShaped, LeafSet, RootHashes,
         Candidates, Erase, RemoveHashes, Merkle, Layout.IsRoot, CoveredBy, Covered, Calculable, Overwritten,
         IsLeafHash;
    AcceptedTerms(g, slots, hashes, proof, s);
    DeletedRoots(g, slots, hashes, proof, s, after);
    if forall i :: 0 <= i < |hashes| ==> hashes[i] == Empty || hashes[i] in slots {
      forall h | h in HashSet(hashes)
        ensures h == Empty || IsLeafHash(h)
      {
        if h != Empty { SlotIsLeafHash(slots, h); }
      }
      ErasesLeaves(g, slots, HashSet(hashes));
    } else {
      var i :| 0 <= i < |hashes| && hashes[i] != Empty && hashes[i] !in slots;
      assert hashes[i] in HashSet(hashes);
      var x, a := DeletesMore(g, slots, hashes, proof, s, hashes[i]);
      if after == RootHashes(Erase(slots, HashSet(hashes))) {
        SameRootSameLeaves(g, slots, CoveredBy(g, slots, HashSet(hashes)), HashSet(hashes), x, a);
        CoveredMember(g, slots, HashSet(hashes), x, a);
      }
    }
  }

  lemma SlotIsLeafHash(slots: seq<Hash>, h: Hash)
    requires GoodSlots(slots) && h in slots && h != Empty
    ensures IsLeafHash(h)
  {
    hide IsLeafHash;
  }

  lemma CoveredMember(g: Layout, slots: seq<Hash>, k: set<Hash>, x: nat, a: Hash)
    requires x < |RootList(|slots|, TreeRows(|slots|), 0)| && a in Covered(TreeAt(g, slots, x), k)
    ensures a in CoveredBy(g, slots, k)
  {
    hide RootList, TreeAt, Covered;
  }

  /** Equal roots have the same leaves. */
  lemma {:induction false} SameRootSameLeaves(g: Layout, slots: seq<Hash>, k: set<Hash>, l: set<Hash>, x: nat, a: Hash)
    requires CollisionFree() && LayoutFor(g, TreeRows(|slots|), |slots|) && GoodSlots(slots) &&
             x < |RootList(|slots|, TreeRows(|slots|), 0)|
    requires RootHashes(Erase(slots, k)) == RootHashes(Erase(slots, l)) && a in LeafSet(TreeAt(g, slots, x))
    ensures a in k <==> a in l
  {
    hide RootList, Collapse, LayoutFor, GoodSlots, CollisionFree, Layout.WellShaped, LeafSet, RootHashes, Erase,
         RemoveHashes, Merkle, Layout.IsRoot, LeafHashes, DistinctTree, Solid;
    var rows, t := TreeRows(|slots|), TreeAt(g, slots, x);
    LayoutFits(g, rows, |slots|);
    EraseCount(slots, k);
    EraseCount(slots, l);
    RootHashAt(g, rows, slots);
    RootHashAt(g, rows, Erase(slots, k));
    RootHashAt(g, rows, Erase(slots, l));
    var root := RootList(|slots|, rows, 0)[x];
    RootTreeOk(g, slots, root);
    CollapseErase(g, slots, k, root);
    CollapseErase(g, slots, l, root);
    LeafHashesLeft(t, k);
    LeafHashesLeft(t, l);
    MerkleInjective(RemoveHashes(t, k), RemoveHashes(t, l));
    LeavesLeft(t, k);
    LeavesLeft(t, l);
  }

  /** The calculation leads to the hash of every root above a target. */
  ghost predicate LeadsToRoots(g: Layout, f: Forest, t: map<nat, Hash>, given: map<nat, Hash>) {
    forall r: nat :: IsTouchedRoot(g, t.Keys, r) ==> Calc(g, t, given, r) == Merkle(At(g, f, r))
  }

  ghost predicate NoneMissing(g: Layout, t: map<nat, Hash>, given: map<nat, Hash>) {
    forall q: nat :: IsProofPos(g, t.Keys, q) ==> q in given && given[q] != Empty
  }

  /** Then every hash on the way is the hash of what is there. */
  lemma {:induction false} BoundAt(g: Layout, slots: seq<Hash>, t: map<nat, Hash>, t0: map<nat, Hash>,
                                   given: map<nat, Hash>, p: nat)
    requires Claims(g, t, t0) && CollisionFree() && GoodSlots(slots) && NoneMissing(g, t, given)
    requires LeadsToRoots(g, ForestOf(g, slots), t, given)
    requires Touched(g, t.Keys, p) || IsProofPos(g, t.Keys, p)
    ensures Calc(g, t, given, p) == Merkle(At(g, ForestOf(g, slots), p))
    decreases 2 * g.m - p
  {
    hide CollisionFree, IsLeafHash, GoodSlots, Merkle, ForestOf, Calc, Touched, Layout.WellShaped, ParentHash,
         LeafHashes;
    var f := ForestOf(g, slots);
    ClaimsShape(g, t, t0);
    if g.IsRoot(p) {
      assert IsTouchedRoot(g, t.Keys, p);
    } else {
      KnownNode(g, t.Keys, p);
      g.NonRootFacts(p);
      var u := g.Up(p);
      TouchedUp(g, t.Keys, p);
      BoundAt(g, slots, t, t0, given, u);
      ClaimsBelow(g, t, t0, given, u);
      ChildKnown(g, t.Keys, u);
      KnownNotEmpty(g, t, t0, given, g.Left(u));
      KnownNotEmpty(g, t, t0, given, g.Right(u));
      AtLeafHashes(g, slots, u);
      SplitTree(At(g, f, u), Calc(g, t, given, g.Left(u)), Calc(g, t, given, g.Right(u)));
      AtChild(g, f, p);
    }
  }

  lemma ClaimsShape(g: Layout, t: map<nat, Hash>, t0: map<nat, Hash>)
    requires Claims(g, t, t0)
    ensures g.WellShaped() && ValidTargets(g, t.Keys)
  {
    hide IsLeafHash;
  }

  lemma KnownNode(g: Layout, s: set<nat>, p: nat)
    requires Touched(g, s, p) || IsProofPos(g, s, p)
    ensures p in g.nodes
  {
  }

  lemma {:induction false} TouchedUp(g: Layout, s: set<nat>, p: nat)
    requires ValidTargets(g, s) && p in g.nodes && !g.IsRoot(p) && (Touched(g, s, p) || Touched(g, s, Sibling(p)))
    ensures TouchedBelow(g, s, g.Up(p)) && Touched(g, s, g.Up(p)) && g.Up(p) !in s
  {
    g.NonRootFacts(p);
  }

  lemma {:induction false} KnownNotEmpty(g: Layout, t: map<nat, Hash>, t0: map<nat, Hash>, given: map<nat, Hash>,
                                         p: nat)
    requires Claims(g, t, t0) && NoneMissing(g, t, given) && (Touched(g, t.Keys, p) || IsProofPos(g, t.Keys, p))
    ensures Calc(g, t, given, p) != Empty
  {
    hide IsLeafHash, Calc;
    TouchedNotEmpty(g, t, t0, given, p);
    if !Touched(g, t.Keys, p) {
      ClaimsShape(g, t, t0);
      CalcGiven(g, t, given, p);
    }
  }

  lemma AtChild(g: Layout, f: Forest, p: nat)
    requires g.WellShaped() && p in g.nodes && !g.IsRoot(p) && At(g, f, g.Up(p)).Node?
    ensures At(g, f, p) == if p % 2 == 0 then At(g, f, g.Up(p)).left else At(g, f, g.Up(p)).right
  {
    g.NonRootFacts(p);
  }

  /** The hashes of a forest at some positions. */
  ghost function HashesAt(g: Layout, f: Forest, ps: seq<nat>): (r: seq<Hash>)
    ensures |r| == |ps| && forall i :: 0 <= i < |ps| ==> r[i] == Merkle(At(g, f, ps[i]))
  {
    seq(|ps|, i requires 0 <= i < |ps| => Merkle(At(g, f, ps[i])))
  }

  /** A proof has the leaves at its targets, and the hashes of the forest, if and only if its targets are different
      nodes, none above another, it has as many proof hashes as are needed, none of them empty, the hashes for its
      targets are leaf hashes, and it leads to the hashes of the roots above its targets. */
  lemma {:induction false} ExactlyHonest(g: Layout, slots: seq<Hash>, hashes: seq<Hash>, proof: Proof)
    requires CollisionFree() && GoodSlots(slots) && LayoutFor(g, TreeRows(|slots|), |slots|)
    ensures HonestProof(g, ForestOf(g, slots), hashes, proof) <==>
            && WellFormed(g, |slots|, Some(hashes), proof) && Calculable(g, |slots|, Some(hashes), proof)
            && |proof.proof| == |PlanFor(g, Elems(proof.targets)).proof|
            && (forall i :: 0 <= i < |hashes| ==> IsLeafHash(hashes[i]))
            && (forall i :: 0 <= i < |proof.proof| ==> proof.proof[i] != Empty)
            && Candidates(g, |slots|, Some(hashes), proof) ==
               HashesAt(g, ForestOf(g, slots), PlanFor(g, Elems(proof.targets)).roots)
  {
    hide CollisionFree, IsLeafHash, GoodSlots, Merkle, ForestOf, Calc, Touched, LayoutFor, PlanFor, TargetMap, GivenMap,
         HonestProof, LeadsToRoots, WellFormed, Calculable, Candidates, Layout.WellShaped;
    var f := ForestOf(g, slots);
    LayoutFits(g, TreeRows(|slots|), |slots|);
    ForestOfCompact(g, slots);
    if HonestProof(g, f, hashes, proof) {
      HonestWellFormed(g, |slots|, f, hashes, proof);
      WellFormedCounts(g, |slots|, hashes, proof);
      HonestCounts(g, f, hashes, proof);
      HonestHashes(g, slots, hashes, proof);
      HonestGiven(g, slots, hashes, proof);
      HonestLeads(g, slots, hashes, proof);
      LeadsIff(g, slots, hashes, proof);
    } else if WellFormed(g, |slots|, Some(hashes), proof) {
      WellFormedCounts(g, |slots|, hashes, proof);
      LeadsIff(g, slots, hashes, proof);
      if |proof.proof| == |PlanFor(g, Elems(proof.targets)).proof| &&
         (forall i :: 0 <= i < |hashes| ==> IsLeafHash(hashes[i])) &&
         (forall i :: 0 <= i < |proof.proof| ==> proof.proof[i] != Empty) &&
         LeadsToRoots(g, f, TargetMap(Some(hashes), proof), GivenMap(g, proof))
      {
        LeadsHonest(g, slots, hashes, proof);
      }
    }
  }

  lemma WellFormedCounts(g: Layout, n: nat, hashes: seq<Hash>, proof: Proof)
    requires WellFormed(g, n, Some(hashes), proof)
    ensures |hashes| == |proof.targets| && |proof.proof| >= |PlanFor(g, Elems(proof.targets)).proof|
  {
    hide LayoutFor, PlanFor, ValidTargets;
  }

  lemma HonestCounts(g: Layout, f: Forest, hashes: seq<Hash>, proof: Proof)
    requires HonestProof(g, f, hashes, proof)
    ensures |proof.proof| == |PlanFor(g, Elems(proof.targets)).proof|
  {
    hide PlanFor, At, Merkle;
  }

  /** Leading to the roots, as a comparison of lists. */
  lemma {:induction false} LeadsIff(g: Layout, slots: seq<Hash>, hashes: seq<Hash>, proof: Proof)
    requires WellFormed(g, |slots|, Some(hashes), proof) && g.WellShaped()
    requires |hashes| == |proof.targets| && |proof.proof| >= |PlanFor(g, Elems(proof.targets)).proof|
    ensures Calculable(g, |slots|, Some(hashes), proof)
    ensures LeadsToRoots(g, ForestOf(g, slots), TargetMap(Some(hashes), proof), GivenMap(g, proof)) <==>
            Candidates(g, |slots|, Some(hashes), proof) ==
            HashesAt(g, ForestOf(g, slots), PlanFor(g, Elems(proof.targets)).roots)
  {
    hide Merkle, ForestOf, Calc, Touched, LayoutFor, PlanUpTo, TargetMap, GivenMap, At, Calculable, Candidates,
         ValidTargets, Layout.WellShaped;
    var f, t, given := ForestOf(g, slots), TargetMap(Some(hashes), proof), GivenMap(g, proof);
    TargetMapFacts(Some(hashes), proof);
    CandidatesPlanned(g, |slots|, Some(hashes), proof);
    PlanMeaning(g, t.Keys, g.m);
    var roots := PlanFor(g, t.Keys).roots;
    assert Candidates(g, |slots|, Some(hashes), proof) == CalcAll(g, t, given, roots);
    if Candidates(g, |slots|, Some(hashes), proof) == HashesAt(g, f, roots) {
      forall r: nat | IsTouchedRoot(g, t.Keys, r)
        ensures Calc(g, t, given, r) == Merkle(At(g, f, r))
      {
        RootNode(g, r);
        g.NodeBound(r);
        var i :| 0 <= i < |roots| && roots[i] == r;
        assert CalcAll(g, t, given, roots)[i] == HashesAt(g, f, roots)[i];
      }
    }
    if LeadsToRoots(g, f, t, given) {
      forall i | 0 <= i < |roots|
        ensures CalcAll(g, t, given, roots)[i] == HashesAt(g, f, roots)[i]
      {
        assert roots[i] in roots;
      }
    }
  }

  /** The hashes of an honest proof are leaf hashes. */
  lemma {:induction false} HonestHashes(g: Layout, slots: seq<Hash>, hashes: seq<Hash>, proof: Proof)
    requires LayoutFor(g, TreeRows(|slots|), |slots|) && GoodSlots(slots) &&
             HonestProof(g, ForestOf(g, slots), hashes, proof)
    ensures forall i :: 0 <= i < |hashes| ==> IsLeafHash(hashes[i])
  {
    hide LayoutFor, GoodSlots, At, PlanFor, ForestOf, IsLeafHash;
    LayoutFits(g, TreeRows(|slots|), |slots|);
    forall i | 0 <= i < |hashes|
      ensures IsLeafHash(hashes[i])
    {
      AtLeafHashes(g, slots, proof.targets[i]);
    }
  }

  /** What an honest proof gives is not empty: beside the way up from a leaf there is something. */
  lemma {:induction false} HonestGiven(g: Layout, slots: seq<Hash>, hashes: seq<Hash>, proof: Proof)
    requires g.WellShaped() && HonestProof(g, ForestOf(g, slots), hashes, proof)
    ensures forall i :: 0 <= i < |proof.proof| ==> proof.proof[i] != Empty
  {
    hide Merkle, ForestOf, Touched, PlanUpTo, At, Layout.WellShaped, ForestOk, Present, SolidExcept, NoDuplicates;
    var f, s := ForestOf(g, slots), Elems(proof.targets);
    ForestOfCompact(g, slots);
    CompactOk(g, f);
    PlanMeaning(g, s, g.m);
    var needed := PlanFor(g, s).proof;
    assert forall x :: x in s ==> At(g, f, x).Leaf?;
    forall i | 0 <= i < |needed|
      ensures Merkle(At(g, f, needed[i])) != Empty
    {
      assert needed[i] in needed;
      var p := needed[i];
      g.NonRootFacts(p);
      TouchedAt(g, f, s, Sibling(p));
      PresentBelow(g, f, Sibling(p));
      PresentBelow(g, f, p);
      NotNilThere(g, f, p);
      AtFits(g, f, p);
      MerkleEmpty(At(g, f, p));
    }
  }

  lemma {:induction false} HonestLeads(g: Layout, slots: seq<Hash>, hashes: seq<Hash>, proof: Proof)
    requires WellFormed(g, |slots|, Some(hashes), proof) && HonestProof(g, ForestOf(g, slots), hashes, proof)
    ensures |hashes| == |proof.targets| && |proof.proof| >= |PlanFor(g, Elems(proof.targets)).proof|
    ensures LeadsToRoots(g, ForestOf(g, slots), TargetMap(Some(hashes), proof), GivenMap(g, proof))
  {
    hide Merkle, ForestOf, Calc, Touched, LayoutFor, PlanFor, TargetMap, GivenMap, At, SolidExcept;
    var f, t := ForestOf(g, slots), TargetMap(Some(hashes), proof);
    LayoutFits(g, TreeRows(|slots|), |slots|);
    ForestOfCompact(g, slots);
    TargetMapFacts(Some(hashes), proof);
    GivenMapFacts(g, f, hashes, proof);
    HonestTargets(g, f, hashes, proof);
    forall r: nat | IsTouchedRoot(g, t.Keys, r)
      ensures Calc(g, t, GivenMap(g, proof), r) == Merkle(At(g, f, r))
    {
      Complete(g, f, t, GivenMap(g, proof), r);
    }
  }

  lemma {:induction false} GivenNotEmpty(g: Layout, hashes: seq<Hash>, proof: Proof, i: nat)
    requires g.WellShaped() && |proof.proof| >= |PlanFor(g, Elems(proof.targets)).proof|
    requires forall i :: 0 <= i < |PlanFor(g, Elems(proof.targets)).proof| ==> proof.proof[i] != Empty
    ensures forall q: nat :: IsProofPos(g, Elems(proof.targets), q) ==>
              q in GivenMap(g, proof) && GivenMap(g, proof)[q] != Empty
    ensures i < |PlanFor(g, Elems(proof.targets)).proof| ==>
              var q := PlanFor(g, Elems(proof.targets)).proof[i];
              IsProofPos(g, Elems(proof.targets), q) && q in GivenMap(g, proof) &&
                  GivenMap(g, proof)[q] == proof.proof[i]
  {
    hide MapOf, PlanUpTo, IsProofPos;
    var t := Elems(proof.targets);
    var needed := PlanFor(g, t).proof;
    PlanMeaning(g, t, g.m);
    PlanAscending(g, t, g.m);
    var z := Zip(needed, proof.proof);
    MapOfFacts(z);
    forall q: nat | IsProofPos(g, t, q)
      ensures q in MapOf(z) && MapOf(z)[q] != Empty
    {
      ProofPosBound(g, t, q);
      var k :| 0 <= k < |needed| && needed[k] == q;
      assert z[k] in z;
    }
    if i < |needed| {
      assert z[i] in z && needed[i] in needed;
    }
  }

  lemma {:induction false} LeadsHonest(g: Layout, slots: seq<Hash>, hashes: seq<Hash>, proof: Proof)
    requires CollisionFree() && GoodSlots(slots) && |hashes| == |proof.targets|
    requires WellFormed(g, |slots|, Some(hashes), proof) && |proof.proof| == |PlanFor(g, Elems(proof.targets)).proof|
    requires forall i :: 0 <= i < |hashes| ==> IsLeafHash(hashes[i])
    requires forall i :: 0 <= i < |proof.proof| ==> proof.proof[i] != Empty
    requires LeadsToRoots(g, ForestOf(g, slots), TargetMap(Some(hashes), proof), GivenMap(g, proof))
    ensures HonestProof(g, ForestOf(g, slots), hashes, proof)
  {
    hide CollisionFree, IsLeafHash, GoodSlots, Merkle, ForestOf, Calc, Touched, LayoutFor, PlanFor, TargetMap, GivenMap,
         At, LeadsToRoots, IsProofPos, Claims, Layout.WellShaped;
    var f, t, t0, given := ForestOf(g, slots), TargetMap(Some(hashes), proof), TargetMap(None, proof),
        GivenMap(g, proof);
    LayoutFits(g, TreeRows(|slots|), |slots|);
    TargetMapFacts(Some(hashes), proof);
    TargetMapFacts(None, proof);
    ClaimsOf(g, hashes, proof);
    GivenNotEmpty(g, hashes, proof, 0);
    forall i | 0 <= i < |hashes|
      ensures At(g, f, proof.targets[i]) == Leaf(hashes[i])
    {
      var x := proof.targets[i];
      TargetTouched(g, t.Keys, x);
      BoundAt(g, slots, t, t0, given, x);
      CalcTarget(g, t, given, x);
      LeafTree(At(g, f, x), hashes[i]);
    }
    var needed := PlanFor(g, Elems(proof.targets)).proof;
    forall i | 0 <= i < |needed|
      ensures proof.proof[i] == Merkle(At(g, f, needed[i]))
    {
      GivenNotEmpty(g, hashes, proof, i);
      BoundAt(g, slots, t, t0, given, needed[i]);
      CalcProofPos(g, t, given, needed[i]);
    }
  }

  lemma TargetTouched(g: Layout, s: set<nat>, x: nat)
    requires ValidTargets(g, s) && x in s
    ensures Touched(g, s, x)
  {
  }

  lemma CalcTarget(g: Layout, t: map<nat, Hash>, given: map<nat, Hash>, x: nat)
    requires x in t
    ensures Calc(g, t, given, x) == t[x]
  {
  }

  lemma CalcProofPos(g: Layout, t: map<nat, Hash>, given: map<nat, Hash>, q: nat)
    requires g.WellShaped() && IsProofPos(g, t.Keys, q) && q in given
    ensures Calc(g, t, given, q) == given[q]
  {
    CalcGiven(g, t, given, q);
  }

  lemma {:induction false} ClaimsOf(g: Layout, hashes: seq<Hash>, proof: Proof)
    requires NoDuplicates(proof.targets) && |hashes| == |proof.targets| && ValidTargets(g, Elems(proof.targets))
    requires forall i :: 0 <= i < |hashes| ==> IsLeafHash(hashes[i])
    ensures Claims(g, TargetMap(Some(hashes), proof), TargetMap(None, proof))
    ensures forall h :: h in HashSet(hashes) <==>
              exists x :: x in TargetMap(Some(hashes), proof) && TargetMap(Some(hashes), proof)[x] == h
  {
    hide TargetMap, Touched, IsLeafHash, Layout.WellShaped;
    var t, t0 := TargetMap(Some(hashes), proof), TargetMap(None, proof);
    TargetMapFacts(Some(hashes), proof);
    TargetMapFacts(None, proof);
    forall x | x in t
      ensures IsLeafHash(t[x]) && t0[x] == Empty && t[x] in HashSet(hashes)
    {
      assert x in Elems(proof.targets);
      var i :| 0 <= i < |proof.targets| && proof.targets[i] == x;
      assert t[x] == hashes[i];
    }
    forall h | h in HashSet(hashes)
      ensures exists x :: x in t && t[x] == h
    {
      var i :| 0 <= i < |hashes| && hashes[i] == h;
      assert t[proof.targets[i]] == h;
    }
  }

  /** Hashes for all targets and all positions the proof must supply. */
  ghost predicate Filled(g: Layout, t: map<nat, Hash>, given: map<nat, Hash>) {
    ValidTargets(g, t.Keys) && (forall x :: x in t ==> t[x] != Empty) && NoneMissing(g, t, given)
  }

  lemma {:induction false} FilledNotEmpty(g: Layout, t: map<nat, Hash>, given: map<nat, Hash>, p: nat)
    requires Filled(g, t, given) && (Touched(g, t.Keys, p) || IsProofPos(g, t.Keys, p))
    ensures Calc(g, t, given, p) != Empty
    decreases p
  {
    if p !in t {
      if TouchedBelow(g, t.Keys, p) {
        hide Touched, Layout.WellShaped;
        FilledShape(g, t, given);
        ChildKnown(g, t.Keys, p);
        FilledNotEmpty(g, t, given, g.Left(p));
        FilledNotEmpty(g, t, given, g.Right(p));
      } else {
        CalcGiven(g, t, given, p);
      }
    }
  }

  lemma FilledShape(g: Layout, t: map<nat, Hash>, given: map<nat, Hash>)
    requires Filled(g, t, given)
    ensures g.WellShaped() && ValidTargets(g, t.Keys)
  {
  }

  /** Two calculations for the same targets that arrive at the same hashes of the roots. */
  ghost predicate SameRoots(g: Layout, t: map<nat, Hash>, given: map<nat, Hash>, u: map<nat, Hash>,
                            other: map<nat, Hash>) {
    && t.Keys == u.Keys && Filled(g, t, given) && Filled(g, u, other)
    && forall r: nat :: IsTouchedRoot(g, t.Keys, r) ==> Calc(g, t, given, r) == Calc(g, u, other, r)
  }

  lemma {:induction false} SameOnTheWay(g: Layout, t: map<nat, Hash>, given: map<nat, Hash>, u: map<nat, Hash>,
                                        other: map<nat, Hash>, p: nat)
    requires CollisionFree() && SameRoots(g, t, given, u, other) && (Touched(g, t.Keys, p) || IsProofPos(g, t.Keys, p))
    ensures Calc(g, t, given, p) == Calc(g, u, other, p)
    decreases 2 * g.m - p
  {
    hide Filled, Calc, Touched, Layout.WellShaped;
    FilledShape(g, t, given);
    FilledShape(g, u, other);
    KnownNode(g, t.Keys, p);
    if g.IsRoot(p) {
      assert IsTouchedRoot(g, t.Keys, p);
    } else {
      g.NonRootFacts(p);
      var a := g.Up(p);
      TouchedUp(g, t.Keys, p);
      SameOnTheWay(g, t, given, u, other, a);
      CalcBelow(g, t, given, a);
      CalcBelow(g, u, other, a);
      ChildKnown(g, t.Keys, a);
      FilledNotEmpty(g, t, given, g.Left(a));
      FilledNotEmpty(g, t, given, g.Right(a));
      FilledNotEmpty(g, u, other, g.Left(a));
      FilledNotEmpty(g, u, other, g.Right(a));
    }
  }

  /** A calculation binds: the hashes of the roots determine the hashes of the targets and every
      hash of the proof. */
  lemma {:induction false} Binding(g: Layout, t: map<nat, Hash>, given: map<nat, Hash>, u: map<nat, Hash>,
                                   other: map<nat, Hash>)
    requires CollisionFree() && SameRoots(g, t, given, u, other)
    ensures t == u
    ensures forall q: nat :: IsProofPos(g, t.Keys, q) ==> q in given && q in other && given[q] == other[q]
  {
    hide CollisionFree, Touched, Calc, IsProofPos;
    forall x | x in t
      ensures t[x] == u[x]
    {
      TargetTouched(g, t.Keys, x);
      SameOnTheWay(g, t, given, u, other, x);
      CalcTarget(g, t, given, x);
      CalcTarget(g, u, other, x);
    }
    forall q: nat | IsProofPos(g, t.Keys, q)
      ensures q in given && q in other && given[q] == other[q]
    {
      SameOnTheWay(g, t, given, u, other, q);
      CalcProofPos(g, t, given, q);
      CalcProofPos(g, u, other, q);
    }
  }

  /** A calculation that is complete: no hash it uses is empty. */
  ghost predicate UsesNoEmpty(g: Layout, n: nat, hashes: seq<Hash>, proof: Proof) {
    && |hashes| == |proof.targets| && WellFormed(g, n, Some(hashes), proof)
    && (forall i :: 0 <= i < |hashes| ==> hashes[i] != Empty)
    && forall i :: 0 <= i < |PlanFor(g, Elems(proof.targets)).proof| ==> proof.proof[i] != Empty
  }

  lemma {:induction false} UsesFilled(g: Layout, n: nat, hashes: seq<Hash>, proof: Proof)
    requires UsesNoEmpty(g, n, hashes, proof)
    ensures |hashes| == |proof.targets| && g.WellShaped() && TargetMap(Some(hashes), proof).Keys == Elems(proof.targets)
    ensures Filled(g, TargetMap(Some(hashes), proof), GivenMap(g, proof))
  {
    hide LayoutFor, PlanFor, TargetMap, GivenMap, ValidTargets, IsProofPos;
    LayoutFits(g, TreeRows(n), n);
    TargetMapFacts(Some(hashes), proof);
    GivenNotEmpty(g, hashes, proof, 0);
    var t := TargetMap(Some(hashes), proof);
    forall x | x in t
      ensures t[x] != Empty
    {
      assert x in Elems(proof.targets);
      var i :| 0 <= i < |proof.targets| && proof.targets[i] == x;
      assert t[x] == hashes[i];
    }
  }

  /** Two runs of the calculation for the same targets that find the same roots used the same hashes. */
  lemma {:induction false} BindingRuns(g: Layout, n: nat, targets: seq<nat>, hashes: seq<Hash>, proof: seq<Hash>,
                                       others: seq<Hash>, otherProof: seq<Hash>)
    requires CollisionFree() && UsesNoEmpty(g, n, hashes, Proof(targets, proof)) &&
             UsesNoEmpty(g, n, others, Proof(targets, otherProof))
    requires Calculable(g, n, Some(hashes), Proof(targets, proof)) &&
             Calculable(g, n, Some(others), Proof(targets, otherProof))
    requires Candidates(g, n, Some(hashes), Proof(targets, proof)) ==
             Candidates(g, n, Some(others), Proof(targets, otherProof))
    ensures hashes == others
    ensures var used := |PlanFor(g, Elems(targets)).proof|;
            used <= |proof| && used <= |otherProof| && proof[..used] == otherProof[..used]
  {
    hide CollisionFree, LayoutFor, PlanUpTo, TargetMap, GivenMap, ValidTargets, IsProofPos, Candidates, Calculable,
         Calc, Filled, Touched;
    var p, q := Proof(targets, proof), Proof(targets, otherProof);
    UsesFilled(g, n, hashes, p);
    UsesFilled(g, n, others, q);
    CandidatesPlanned(g, n, Some(hashes), p);
    CandidatesPlanned(g, n, Some(others), q);
    var t, u, roots := TargetMap(Some(hashes), p), TargetMap(Some(others), q), PlanFor(g, Elems(targets)).roots;
    PlanMeaning(g, Elems(targets), g.m);
    forall r: nat | IsTouchedRoot(g, t.Keys, r)
      ensures Calc(g, t, GivenMap(g, p), r) == Calc(g, u, GivenMap(g, q), r)
    {
      RootNode(g, r);
      g.NodeBound(r);
      var i :| 0 <= i < |roots| && roots[i] == r;
      assert CalcAll(g, t, GivenMap(g, p), roots)[i] == CalcAll(g, u, GivenMap(g, q), roots)[i];
    }
    Binding(g, t, GivenMap(g, p), u, GivenMap(g, q));
    TargetMapFacts(Some(hashes), p);
    TargetMapFacts(Some(others), q);
    forall i | 0 <= i < |targets|
      ensures hashes[i] == others[i]
    {
      assert p.targets[i] in t && t[p.targets[i]] == hashes[i] && u[q.targets[i]] == others[i];
    }
    assert hashes == others;
    forall i | 0 <= i < |PlanFor(g, Elems(targets)).proof|
      ensures proof[i] == otherProof[i]
    {
      GivenNotEmpty(g, hashes, p, i);
      GivenNotEmpty(g, others, q, i);
    }
  }
}
