/** Inputs that show how far the check of a proof goes. */
module Counterexamples {
  import opened Hashes
  import opened Options
  import opened Positions
  import opened Geometry
  import opened Layouts
  import opened Entries
  import opened Calculation
  import opened Forests
  import opened Slots
  import opened Uniqueness
  import opened Stumps
  import opened StumpState
  import opened Passes
  import opened Soundness
  import opened TreeIndex
  import opened Nieces
  import opened NieceNavigation
  import opened ProofAlgebra
  import opened Proving
  import opened PollardState
  import opened MapPollards
  import opened MapUse
  import opened LinkedSearch
  import opened Links
  import opened Cells

  /** The forest of four leaves. */
  ghost function FourLeaves(): Layout {
    Layout(4, {0, 1, 2, 3, 4, 5, 6})
  }

  /** The forest of three leaves, in the rows it needs. */
  ghost function ThreeLeaves(): Layout {
    Layout(4, {0, 1, 2, 4})
  }

  lemma TwoRowsFor()
    ensures TreeRows(3) == 2 && TreeRows(4) == 2 && Pow2(2) == 4
  {
    assert BitLen(1) == 1 + BitLen(0) && BitLen(2) == 1 + BitLen(1) && BitLen(3) == 1 + BitLen(1);
    assert Pow2(1) == 2;
  }

  lemma SmallNumbers()
    ensures Pow2(0) == 1 && Pow2(1) == 2 && Pow2(2) == 4 && Pow2(3) == 8
    ensures Start(2, 0) == 0 && Start(2, 1) == 4 && Start(2, 2) == 6 && Start(2, 3) == 7
  {
    assert Pow2(0) == 1 && Pow2(1) == 2 && Pow2(2) == 4 && Pow2(3) == 8;
  }

  lemma {:induction false} RowsOfSeven(p: nat)
    ensures Valid(2, p) <==> p < 7
    ensures p < 4 ==> Row(2, p) == 0 && Offset(2, p) == p
    ensures 4 <= p < 6 ==> Row(2, p) == 1 && Offset(2, p) == p - 4
    ensures p == 6 ==> Row(2, p) == 2 && Offset(2, p) == 0
  {
    hide Pow2, Row, Start;
    SmallNumbers();
    if p < 4 { RowUnique(2, p, 0); } else if p < 6 { RowUnique(2, p, 1); } else if p == 6 { RowUnique(2, p, 2); }
  }

  lemma ShrSmall()
    ensures Shr(4, 0) == 4 && Shr(4, 1) == 2 && Shr(4, 2) == 1 && Shr(4, 3) == 0
    ensures Shr(3, 0) == 3 && Shr(3, 1) == 1 && Shr(3, 2) == 0
  {
  }

  lemma {:induction false} FourLeavesLayout()
    ensures LayoutFor(FourLeaves(), TreeRows(4), 4)
  {
    hide Row, Offset, TreeRows, Pow2, Shr;
    TwoRowsFor();
    ShrSmall();
    var g := FourLeaves();
    assert g.WellShaped();
    forall p: nat
      ensures p in g.nodes <==> InForest(2, 4, p)
    {
      RowsOfSeven(p);
    }
  }

  lemma {:induction false} ThreeLeavesLayout()
    ensures LayoutFor(ThreeLeaves(), TreeRows(3), 3)
  {
    hide Row, Offset, TreeRows, Pow2, Shr;
    TwoRowsFor();
    ShrSmall();
    var g := ThreeLeaves();
    assert g.WellShaped();
    forall p: nat
      ensures p in g.nodes <==> InForest(2, 3, p)
    {
      RowsOfSeven(p);
    }
  }

  lemma RootsOfFour(a: Hash, b: Hash, c: Hash, d: Hash)
    requires a != Empty && b != Empty && c != Empty && d != Empty
    ensures RootHashes([a, b, c, d]) == [ParentHash(ParentHash(a, b), ParentHash(c, d))]
  {
    hide ParentHash;
    ShrSmall();
    var slots := [a, b, c, d];
    assert RootTrees(slots, 3) == [];
    assert Block(slots, 1, 0) == Node(Leaf(a), Leaf(b)) && Block(slots, 1, 1) == Node(Leaf(c), Leaf(d));
    assert Block(slots, 2, 0) == Node(Node(Leaf(a), Leaf(b)), Node(Leaf(c), Leaf(d)));
    assert RootTrees(slots, 2) == [Block(slots, 2, 0)];
    assert RootTrees(slots, 1) == RootTrees(slots, 2) && RootTrees(slots, 0) == RootTrees(slots, 1);
    assert Merkle(Node(Leaf(a), Leaf(b))) == ParentHash(a, b) && Merkle(Node(Leaf(c), Leaf(d))) == ParentHash(c, d);
  }

  lemma RootsOfThree(a: Hash, c: Hash)
    requires a != Empty && c != Empty
    ensures RootHashes([a, Empty, c]) == [a, c]
  {
    ShrSmall();
    var slots := [a, Empty, c];
    assert RootTrees(slots, 2) == [];
    assert Block(slots, 1, 0) == Leaf(a) && Block(slots, 0, 2) == Leaf(c);
    assert RootTrees(slots, 1) == [Leaf(a)];
    assert RootTrees(slots, 0) == [Leaf(a), Leaf(c)];
  }

  /** A calculation with one target that is the child of a root. */
  lemma {:induction false} RunOfOne(g: Layout, p: nat, h: Hash, y: Hash)
    requires g.WellShaped() && p in g.nodes && !g.IsRoot(p) && g.IsRoot(g.Up(p))
    ensures var a: seq<Item<Hash>>, b: seq<Item<Hash>> := [Item(p, h)], [];
            InNodes(g, a) && InNodes(g, b) && Pass(g, a, b, [y], NextHash) == Some([NextHash(p, h, y)])
  {
    hide Layout.WellShaped, Pass, Weight, NextHash, Layout.IsRoot;
    var a: seq<Item<Hash>>, b: seq<Item<Hash>> := [Item(p, h)], [];
    RunStep(g, a, b, [y], NextHash);
    var x := Item(g.Up(p), NextHash(p, h, y));
    var b1: seq<Item<Hash>> := [x];
    assert b + [x] == b1 && a[1..] == [] && [y][1..] == [];
    RunOfRoot(g, b1, x);
  }

  lemma {:induction false} RunOfRoot(g: Layout, b: seq<Item<Hash>>, x: Item<Hash>)
    requires g.WellShaped() && g.IsRoot(x.pos) && b == [x]
    ensures var none: seq<Item<Hash>> := [];
            && InNodes(g, b) && InNodes(g, none)
            && Pass(g, none, b, [], NextHash) == Some([x.value]) && Pass(g, b, none, [], NextHash) == Some([x.value])
  {
    hide Layout.WellShaped, Pass, Weight, NextHash;
    var none: seq<Item<Hash>> := [];
    RunStep(g, none, b, [], NextHash);
    RunStep(g, b, none, [], NextHash);
    RunEnd(g, none, none, [], NextHash);
    assert b[1..] == [] && [x.value] + [] == [x.value];
  }

  lemma SortsOne(p: nat, h: Hash)
    ensures SortEntries(Zip([p], [h])) == [Entry(p, h)]
  {
    assert Zip([p], [h])[1..] == [];
  }

  /** What a proof with one target leads to. */
  lemma {:induction false} RunsOfOne(g: Layout, n: nat, p: nat, h: Hash, proof: seq<Hash>)
    requires LayoutFor(g, TreeRows(n), n) && p in g.nodes
    requires if g.IsRoot(p) then proof == [] else |proof| == 1 && g.IsRoot(g.Up(p))
    ensures var next := if g.IsRoot(p) then h else NextHash(p, h, proof[0]);
            && Calculable(g, n, Some([h]), Proof([p], proof)) &&
               Candidates(g, n, Some([h]), Proof([p], proof)) == [next]
  {
    hide LayoutFor, Pass, NextHash, Layout.WellShaped, SortEntries, Layout.IsRoot;
    LayoutFits(g, TreeRows(n), n);
    SortsOne(p, h);
    assert ItemsOf([Entry(p, h)]) == [Item(p, h)];
    if g.IsRoot(p) {
      RunOfRoot(g, [Item(p, h)], Item(p, h));
    } else {
      RunOfOne(g, p, h, proof[0]);
      assert proof == [proof[0]];
    }
  }

  /** Naming the hash of an inner node deletes the leaves below it: the stump accepts it, and what is left is not what
      is left when the hash is deleted from the leaves. */
  lemma {:induction false} InnerHashDeletes(a: Hash, b: Hash, c: Hash, d: Hash, after: seq<Hash>)
    requires CollisionFree() && GoodSlots([a, b, c, d]) && a != Empty && b != Empty && c != Empty && d != Empty
    ensures var g, slots, h, proof := FourLeaves(), [a, b, c, d], ParentHash(a, b), Proof([4], [ParentHash(c, d)]);
            && LayoutFor(g, TreeRows(4), 4) && Calculable(g, 4, Some([h]), proof) &&
               !Refused(g, 4, [h], proof, RootHashes(slots))
            && Accepted(g, slots, [h], proof, [0]) && Calculable(g, 4, None, proof)
            && (Overwritten(RootHashes(slots), [0], Candidates(g, 4, None, proof), after) ==>
                  after == RootHashes(Erase(slots, CoveredBy(g, slots, {h}))) != RootHashes(Erase(slots, {h})))
  {
    hide CollisionFree, LayoutFor, RootHashes, Calculable, Candidates, Erase, CoveredBy, Overwritten, TreeRows,
         ParentHash, Accepted, Refused;
    var g, slots, h, proof := FourLeaves(), [a, b, c, d], ParentHash(a, b), Proof([4], [ParentHash(c, d)]);
    FourLeavesLayout();
    assert g.Up(4) == 6 && g.Up(6) == 7;
    RunsOfOne(g, 4, 4, h, [ParentHash(c, d)]);
    RootsOfFour(a, b, c, d);
    NotEmptyHash(a, b);
    NotEmptyHash(c, d);
    assert Matches([0], Candidates(g, 4, Some([h]), proof), RootHashes(slots));
    NotRefused(g, 4, [h], proof, RootHashes(slots), [0]);
    NowAccepted(g, slots, [h], proof, [0]);
    DelFacts(g, 4, [h], proof);
    assert HashSet([h]) == {h};
    if Overwritten(RootHashes(slots), [0], Candidates(g, 4, None, proof), after) {
      DeletedRoots(g, slots, [h], proof, [0], after);
      ErasesExactly(g, slots, [h], proof, [0], after);
      InnerNotSlot(slots, a, b);
      assert [h][0] == h;
    }
  }

  lemma NotEmptyHash(a: Hash, b: Hash)
    ensures ParentHash(a, b) != Empty && !IsLeafHash(ParentHash(a, b))
  {
  }

  lemma {:induction false} InnerNotSlot(slots: seq<Hash>, a: Hash, b: Hash)
    requires GoodSlots(slots)
    ensures ParentHash(a, b) !in slots
  {
    NotEmptyHash(a, b);
    hide IsLeafHash, ParentHash;
  }

  /** A proof is accepted that names the wrong position: a leaf that moved up is named where a smaller tree is. */
  lemma {:induction false} AcceptedElsewhere(a: Hash, c: Hash)
    requires CollisionFree() && GoodSlots([a, Empty, c]) && a != Empty && c != Empty
    ensures var g, slots, proof := ThreeLeaves(), [a, Empty, c], Proof([2], []);
            && LayoutFor(g, TreeRows(3), 3) && Calculable(g, 3, Some([a]), proof) &&
               !Refused(g, 3, [a], proof, RootHashes(slots))
            && Accepted(g, slots, [a], proof, [0])
            && At(g, ForestOf(g, slots), 2) == Leaf(c) && At(g, ForestOf(g, slots), 4) == Leaf(a)
            && !HonestProof(g, ForestOf(g, slots), [a], proof)
  {
    hide CollisionFree, LayoutFor, RootHashes, Calculable, Candidates, TreeRows, Accepted, Refused, GoodSlots, At,
         ForestOf;
    var g, slots, proof := ThreeLeaves(), [a, Empty, c], Proof([2], []);
    ThreeLeavesLayout();
    LayoutFits(g, TreeRows(3), 3);
    assert g.Up(2) == 5 && g.Up(4) == 6 && g.IsRoot(2) && g.IsRoot(4);
    RunsOfOne(g, 3, 2, a, []);
    RootsOfThree(a, c);
    assert Matches([0], Candidates(g, 3, Some([a]), proof), RootHashes(slots));
    NotRefused(g, 3, [a], proof, RootHashes(slots), [0]);
    NowAccepted(g, slots, [a], proof, [0]);
    LeavesOfThree(a, c);
    DifferentLeaves(slots);
    assert proof.targets[0] == 2 && [a][0] == a;
  }

  lemma DifferentLeaves(slots: seq<Hash>)
    requires GoodSlots(slots) && |slots| == 3 && slots[0] != Empty
    ensures slots[0] != slots[2]
  {
  }

  lemma {:induction false} LeavesOfThree(a: Hash, c: Hash)
    requires a != Empty && c != Empty
    ensures var g, slots := ThreeLeaves(), [a, Empty, c];
            At(g, ForestOf(g, slots), 2) == Leaf(c) && At(g, ForestOf(g, slots), 4) == Leaf(a)
  {
    hide LayoutFor, Layout.WellShaped, TreeRows;
    var g, slots := ThreeLeaves(), [a, Empty, c];
    ThreeLeavesLayout();
    LayoutFits(g, TreeRows(3), 3);
    assert g.Up(2) == 5 && g.Up(4) == 6 && g.IsRoot(2) && g.IsRoot(4);
    AtRoot(g, slots, 2);
    AtRoot(g, slots, 4);
    assert Collapse(g, slots, 2) == Leaf(c);
    assert g.Left(4) == 0 && g.Right(4) == 1 && Collapse(g, slots, 0) == Leaf(a) && Collapse(g, slots, 1) == Nil;
  }

  /** A proof with an empty hash is accepted that names the wrong position: the leaf moved up to the root. */
  lemma {:induction false} AcceptedWithEmpty(a: Hash)
    requires CollisionFree() && GoodSlots([a, Empty]) && a != Empty
    ensures var g, slots, proof := TwoLeaves(), [a, Empty], Proof([0], [Empty]);
            && LayoutFor(g, TreeRows(2), 2) && Calculable(g, 2, Some([a]), proof) &&
               !Refused(g, 2, [a], proof, RootHashes(slots))
            && Accepted(g, slots, [a], proof, [0]) && Candidates(g, 2, Some([a]), proof) == [a]
            && At(g, ForestOf(g, slots), 2) == Leaf(a) && At(g, ForestOf(g, slots), 0) == Nil
            && !HonestProof(g, ForestOf(g, slots), [a], proof)
  {
    hide CollisionFree, LayoutFor, RootHashes, Calculable, Candidates, TreeRows, Accepted, Refused, GoodSlots, At,
         ForestOf;
    var g, slots, proof := TwoLeaves(), [a, Empty], Proof([0], [Empty]);
    TwoLeavesLayout();
    LayoutFits(g, TreeRows(2), 2);
    assert g.Up(0) == 2 && g.Up(2) == 3 && !g.IsRoot(0) && g.IsRoot(2);
    RunsOfOne(g, 2, 0, a, [Empty]);
    LeavesOfTwoLeft(a);
    RootsOfTwoLeft(a);
    assert Matches([0], Candidates(g, 2, Some([a]), proof), RootHashes(slots));
    NotRefused(g, 2, [a], proof, RootHashes(slots), [0]);
    NowAccepted(g, slots, [a], proof, [0]);
    assert proof.targets[0] == 0 && [a][0] == a;
  }

  lemma RootsOfTwoLeft(a: Hash)
    requires a != Empty
    ensures RootHashes([a, Empty]) == [a]
  {
    var slots := [a, Empty];
    assert Shr(2, 0) == 2 && Shr(2, 1) == 1 && Shr(2, 2) == 0;
    assert RootTrees(slots, 2) == [];
    assert Block(slots, 1, 0) == Leaf(a);
    assert RootTrees(slots, 1) == [Leaf(a)];
    assert RootTrees(slots, 0) == [Leaf(a)];
  }

  lemma {:induction false} LeavesOfTwoLeft(a: Hash)
    requires a != Empty
    ensures var g, slots := TwoLeaves(), [a, Empty];
            At(g, ForestOf(g, slots), 2) == Leaf(a) && At(g, ForestOf(g, slots), 0) == Nil
  {
    hide LayoutFor, Layout.WellShaped, TreeRows;
    var g, slots := TwoLeaves(), [a, Empty];
    TwoLeavesLayout();
    LayoutFits(g, TreeRows(2), 2);
    assert g.Up(0) == 2 && g.Up(2) == 3 && !g.IsRoot(0) && g.IsRoot(2);
    AtRoot(g, slots, 2);
    assert g.Left(2) == 0 && g.Right(2) == 1 && Collapse(g, slots, 0) == Leaf(a) && Collapse(g, slots, 1) == Nil;
  }

  /** Of two empty roots the bigger one is given the position of the smaller one. */
  method EmptyRootElsewhere(p: Pollard) returns (q: nat)
    requires CollisionFree() && p.Represents([Empty, Empty, Empty])
    ensures LayoutFor(ThreeLeaves(), TreeRows(3), 3) && 4 in ThreeLeaves().nodes
    ensures Present(ThreeLeaves(), ForestOf(ThreeLeaves(), [Empty, Empty, Empty]), 4) && q == 2
  {
    hide LayoutFor, TreeRows, ForestOf, GoodSlots, RootList, CollisionFree, Linked, MapRight, Grove;
    ghost var slots, g := [Empty, Empty, Empty], ThreeLeaves();
    ThreeLeavesLayout();
    LayoutFits(g, TreeRows(3), 3);
    NoLeaves();
    assert g.Up(2) == 5 && g.Up(4) == 6 && g.IsRoot(2) && g.IsRoot(4);
    RootOfRoot(g, 4);
    var n;
    n, q := PositionOfFound(p.heap, p.roots, 3, 4, p.cells, g, slots, 0);
    assert RootTrees(slots, 0)[1].Nil?;
    RootsOfThreeLeaves(q);
  }

  lemma RootsOfThreeLeaves(q: nat)
    requires ThreeLeaves().IsRoot(q)
    ensures q == 2 || q == 4
  {
    var g := ThreeLeaves();
    assert g.Up(0) == 4 && g.Up(1) == 4;
  }

  lemma NoLeaves()
    ensures var slots := [Empty, Empty, Empty];
            && GoodSlots(slots) && RootTrees(slots, 0) == [Nil, Nil] && TreeRows(3) == 2
            && |RootList(3, 2, 0)| == 2 && RootList(3, 2, 0)[0] == 4
  {
    TwoRowsFor();
    ShrSmall();
    var slots := [Empty, Empty, Empty];
    assert RootTrees(slots, 2) == [];
    assert Block(slots, 1, 0) == Nil && Block(slots, 0, 2) == Nil;
    assert RootTrees(slots, 1) == [Nil];
    assert RootTrees(slots, 0) == [Nil, Nil];
    assert RootList(3, 2, 2) == [];
    assert RootPosition(3, 1, 2) == 4;
    assert RootList(3, 2, 1) == [4];
  }

  /** Asked for a leaf twice, both pollards answer with a proof, and neither is honest. */
  method AskedTwice(p: Pollard, m: MapPollard, a: Hash, b: Hash)
    returns (ok: bool, proof: Proof, ok': bool, proof': Proof)
    requires CollisionFree() && GoodSlots([a, b]) && a != Empty
    requires p.Represents([a, b]) && m.Represents([a, b]) && a in m.cachedLeaves
    ensures ok && ok' && !Proves([a, b], [a, a], proof) && !Proves([a, b], [a, a], proof')
  {
    hide GoodSlots, CollisionFree, Proves, MapPollard.Represents, Grove, RootTrees, Linked, MapRight;
    assert HashSet([a, a]) == {a} && [a, b][0] == a;
    assert [a, a][0] == [a, a][1];
    ok, proof := p.Prove([a, a], [a, b]);
    ok', proof' := m.Prove([a, a], [a, b]);
    assert !NoRepeat([a, a]);
  }

  /** Position 6 is not in a forest of five leaves, but asking for its hash gives that of the last leaf, at
      position 4. */
  method HashElsewhere(p: Pollard, ghost slots: seq<Hash>) returns (h: Hash)
    requires |slots| == 5 && slots[4] != Empty && p.Represents(slots)
    ensures 6 !in ShapeOf(5).nodes && h == slots[4]
  {
    hide Grove, RootTrees, LayoutFor, TreeRows, ShapeOf, Landing, ForestOf, At, Linked, MapRight, GoodSlots;
    Shapes(5, 0);
    SixOfFive();
    LastOfFive(slots);
    h := GetHash(p.heap, p.roots, 5, 6, p.cells, ShapeOf(5), slots);
    LandingFacts(ShapeOf(5), 5, 6);
  }

  lemma RowsForFive()
    ensures TreeRows(5) == 3 && Pow2(3) == 8 && Pow2(0) == 1
    ensures Shr(5, 0) == 5 && Shr(5, 1) == 2 && Shr(5, 2) == 1 && Shr(5, 3) == 0
    ensures Shr(6, 0) == 6 && Shr(6, 1) == 3 && Shr(6, 2) == 1 && Shr(6, 3) == 0
  {
    assert BitLen(1) == 1 && BitLen(2) == 2 && BitLen(4) == 1 + BitLen(2);
    assert Pow2(1) == 2 && Pow2(2) == 4;
  }

  lemma {:induction false} SixOfFive()
    ensures Landing(5, 6) == Some(4)
  {
    hide TreeRows, Pow2, Shr, Row, Offset, StopRow, Start;
    RowsForFive();
    LowRow(3, 6);
    assert FirstLeaf(3, 6) == 6;
    StopsAtZero();
    assert LandsOff(5, 6, 0, 0) == 4;
  }

  lemma {:induction false} StopsAtZero()
    ensures StopRow(5, 6, 3) == 0
  {
    hide Shr, StopRow;
    RowsForFive();
    StopStep(5, 6, 0);
    StopStep(5, 6, 1);
    StopStep(5, 6, 2);
    StopStep(5, 6, 3);
  }

  lemma {:induction false} LastOfFive(slots: seq<Hash>)
    requires |slots| == 5 && slots[4] != Empty
    ensures Merkle(At(ShapeOf(5), ForestOf(ShapeOf(5), slots), 4)) == slots[4]
  {
    hide LayoutFor, TreeRows, Shr, Layout.WellShaped, ShapeOf, At, ForestOf, Pow2, Start, InForest;
    RowsForFive();
    Shapes(5, 0);
    var g := ShapeOf(5);
    LayoutFits(g, 3, 5);
    LowRow(3, 4);
    FourInFive();
    LayoutAt(g, 3, 5, 4);
    RootIff(3, 5, 4);
    AtRoot(g, slots, 4);
    CollapseLeaf(g, 3, slots, 4);
  }

  lemma FourInFive()
    ensures InForest(3, 5, 4)
  {
    RowsForFive();
    LowRow(3, 4);
  }

  /** Where the left niece points to its aunt the walk down stops, and the right niece keeps the aunt it has. */
  method AuntNotSet(a: Hash, b: Hash, c: Hash) returns (h: Heap, h': Heap)
    ensures var k := Skel(1, Skel(2, NoSkel, NoSkel), Skel(3, NoSkel, NoSkel));
            Apart(k) && Hangs(h, k) && 1 in h && h[1].aunt == NIL && !Tied(h', k, NIL)
  {
    h := map[1 := Cell(a, 2, 3, NIL, true), 2 := Cell(b, NIL, NIL, 1, true), 3 := Cell(c, NIL, NIL, NIL, true)];
    ghost var l, r := Skel(2, NoSkel, NoSkel), Skel(3, NoSkel, NoSkel);
    ghost var k := Skel(1, l, r);
    assert Refs(l) == {2} && Refs(r) == {3} && Apart(l) && Apart(r);
    ApartParts(k);
    assert Hangs(h, l) && Hangs(h, r) && Points(h, k);
    h' := UpdateAunt(h, 1, k);
    assert !Tied(h, r, 1);
  }
}
