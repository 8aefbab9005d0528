/** The full pollard as an object. */
module PollardState {
  import opened Hashes
  import opened Options
  import opened Positions
  import opened Geometry
  import opened Layouts
  import opened Entries
  import opened Shape
  import opened Forests
  import opened Slots
  import opened Calculation
  import opened Stumps
  import opened Uniqueness
  import opened Pollards
  import opened LeafCounts
  import opened Nieces
  import opened NieceEdits
  import opened NiecePollard
  import opened PollardUndo
  import opened Cells
  import opened Links
  import opened LinkedDelete
  import opened LinkedAdd
  import opened LinkedUndo
  import opened LinkedUndoDels
  import opened LinkedSearch
  import opened ProofPositions
  import opened Proving
  import opened StumpState

  /** The hashes stored at the roots. */
  function StoredHashes(roots: seq<PolNode>): (r: seq<Hash>)
    ensures |r| == |roots| && forall i :: 0 <= i < |roots| ==> r[i] == DataOf(roots[i])
  {
    seq(|roots|, i requires 0 <= i < |roots| => DataOf(roots[i]))
  }

  lemma {:induction false} GroveHashes(roots: seq<PolNode>, slots: seq<Hash>)
    requires Grove(roots, RootTrees(slots, 0))
    ensures StoredHashes(roots) == RootHashes(slots)
  {
    hide RootTrees, Kids;
  }

  /** A node without its flags. */
  function Stripped(n: PolNode): PolNode {
    if n.NoNode? then NoNode else Pol(n.data, Stripped(n.lNiece), Stripped(n.rNiece), false)
  }

  function StrippedAll(roots: seq<PolNode>): (r: seq<PolNode>)
    ensures |r| == |roots| && forall i :: 0 <= i < |roots| ==> r[i] == Stripped(roots[i])
  {
    seq(|roots|, i requires 0 <= i < |roots| => Stripped(roots[i]))
  }

  /** A tree has one node, but for the flags. */
  lemma {:induction false} OneNode(a: PolNode, b: PolNode, t: Tree, s: Tree)
    requires Holds(a, t, s) && Holds(b, t, s)
    ensures Stripped(a) == Stripped(b)
    decreases s
  {
    if s.Node? {
      OneNode(a.lNiece, b.lNiece, s.left, s.right);
      OneNode(a.rNiece, b.rNiece, s.right, s.left);
    }
  }

  lemma {:induction false} OneGrove(a: seq<PolNode>, b: seq<PolNode>, trees: seq<Tree>)
    requires Grove(a, trees) && Grove(b, trees)
    ensures StrippedAll(a) == StrippedAll(b)
  {
    hide Stripped, Holds;
    forall i | 0 <= i < |trees|
      ensures Stripped(a[i]) == Stripped(b[i])
    {
      OneNode(a[i], b[i], trees[i], trees[i]);
    }
  }

  /** The empty proof. */
  lemma {:induction false} ProveNothing(slots: seq<Hash>, hashes: seq<Hash>)
    requires |hashes| == 0 || |slots| == 0
    ensures Proves(slots, hashes, Proof([], [])) <==> NoRepeat(hashes) && HashSet(hashes) <= LeafKeys(slots)
  {
    hide PlanFor, LayoutFor, ForestOf, ShapeOf, Layout.WellShaped;
    var g := ShapeOf(|slots|);
    Shapes(|slots|, 0);
    LayoutFits(g, TreeRows(|slots|), |slots|);
    NothingNeeded(g);
    assert Elems([]) == {};
    if |hashes| > 0 { assert hashes[0] in HashSet(hashes); }
  }

  /** The proof that is given when there is one leaf. */
  lemma {:induction false} ProveOnly(slots: seq<Hash>, hashes: seq<Hash>)
    requires |slots| == 1 && |hashes| > 0
    ensures Proves(slots, hashes, Proof([0], [])) <==> NoRepeat(hashes) && HashSet(hashes) <= LeafKeys(slots)
  {
    hide Proves;
    OnlyLeaf(slots, hashes);
    assert hashes[0] in HashSet(hashes);
    if |hashes| > 1 { assert hashes[1] in HashSet(hashes); }
    assert forall h :: h in LeafKeys(slots) ==> h == slots[0];
    if NoRepeat(hashes) && HashSet(hashes) <= LeafKeys(slots) {
      assert |hashes| == 1;
      assert hashes == slots;
    }
  }

  lemma AllKeys(hashes: seq<Hash>, keys: set<Hash>)
    requires forall i :: 0 <= i < |hashes| ==> hashes[i] in keys
    ensures HashSet(hashes) <= keys
  {
  }

  lemma {:induction false} OneTarget(g: Layout, slots: seq<Hash>, hashes: seq<Hash>, targets: seq<nat>)
    requires g.WellShaped() && GoodSlots(slots) && |targets| == |hashes|
    requires forall i :: 0 <= i < |hashes| ==> At(g, ForestOf(g, slots), targets[i]) == Leaf(hashes[i])
    ensures forall i, j :: 0 <= i < j < |hashes| && hashes[i] == hashes[j] ==> targets[i] == targets[j]
  {
    hide Layout.WellShaped, GoodSlots, At, ForestOf;
    forall i, j | 0 <= i < j < |hashes| && hashes[i] == hashes[j]
      ensures targets[i] == targets[j]
    {
      OnePlace(g, slots, targets[i], targets[j]);
    }
  }

  lemma {:induction false} AllLeaves(g: Layout, slots: seq<Hash>, hashes: seq<Hash>, targets: seq<nat>,
                                     sorted: seq<nat>)
    requires |targets| == |hashes| && Elems(sorted) == Elems(targets)
    requires forall i :: 0 <= i < |hashes| ==> At(g, ForestOf(g, slots), targets[i]) == Leaf(hashes[i])
    ensures forall p :: p in sorted ==> At(g, ForestOf(g, slots), p).Leaf?
  {
    hide At, ForestOf;
    forall p | p in sorted
      ensures At(g, ForestOf(g, slots), p).Leaf?
    {
      assert p in Elems(sorted) && p in Elems(targets);
    }
  }

  /** The nodes are cells of a heap, which point to their nieces and to their aunt. */
  class Pollard {
    var heap: Heap
    var next: Ref
    var roots: seq<Ref>
    var nodeMap: map<Hash, Ref>
    var numLeaves: nat
    var numDels: nat
    ghost var cells: seq<Skel>

    constructor ()
      ensures Represents([]) && numDels == 0 && heap == map[] && next == 1 && roots == [] && nodeMap == map[] &&
              cells == []
    {
      heap, next, roots, nodeMap, numLeaves, numDels, cells := map[], 1, [], map[], 0, 0, [];
    }

    /** The roots with all that hangs from them. */
    ghost function Nodes(): seq<PolNode>
      reads this
    {
      ValsOf(heap, cells)
    }

    /** The pointers to nieces and aunts fit together.  The nodes are those of the trees of the slots, each with its
        hash stored and its nieces below it.  The map has the leaves, and leads to their nodes when no hash is on two
        leaves. And as many leaves were deleted as there are empty slots. */
    ghost predicate Represents(slots: seq<Hash>)
      reads this
    {
      && numLeaves == |slots| && Room(heap, next) && Linked(heap, roots, cells) && Grove(Nodes(), RootTrees(slots, 0))
      && nodeMap.Keys == LeafKeys(slots) && (GoodSlots(slots) ==> MapRight(heap, cells, nodeMap))
      && numDels == Vacant(slots)
    }

    /** The stored hashes of the roots are those a stump has. */
    method GetRoots(ghost slots: seq<Hash>) returns (hashes: seq<Hash>)
      requires Represents(slots)
      ensures hashes == RootHashes(slots)
    {
      hide RootTrees, Vacant, LeafKeys, RootHashes, IsRootNode, Linked, GoodSlots, MapRight, Val;
      hashes := [];
      AllRootData(heap, roots, cells);
      for i := 0 to |roots|
        invariant |hashes| == i && forall j :: 0 <= j < i ==> hashes[j] == DataOf(Nodes()[j])
      {
        hashes := hashes + [heap[roots[i]].data];
      }
      GroveHashes(Nodes(), slots);
      assert hashes == StoredHashes(Nodes());
    }

    /** A proof of leaves.  It fails only if there is a second leaf and some hash is not that of a leaf; and the proof
        is honest if and only if each hash is that of a leaf and none is asked for twice. */
    method Prove(hashes: seq<Hash>, ghost slots: seq<Hash>) returns (ok: bool, proof: Proof)
      requires CollisionFree() && Represents(slots) && GoodSlots(slots)
      ensures ok <==> |hashes| == 0 || numLeaves <= 1 || HashSet(hashes) <= nodeMap.Keys
      ensures ok ==> (Proves(slots, hashes, proof) <==> NoRepeat(hashes) && HashSet(hashes) <= nodeMap.Keys)
      ensures |hashes| == 0 || numLeaves == 0 ==> proof == Proof([], [])
      ensures |hashes| > 0 && numLeaves == 1 ==> proof == Proof([0], [])
      ensures ok && |hashes| > 0 && numLeaves > 1 ==> Located(slots, hashes, proof.targets)
    {
      hide ForestOf, LayoutFor, GoodSlots, HashSet, SortPositions, PlanFor, ValidTargets, Merkle, At, HonestProof,
           Proves, TreeRows, ShapeOf, Elems, NoRepeat, NoDuplicates, Ascending, BesideTargets, Grove, RootTrees, Vacant,
           LeafKeys, CollisionFree, InOrder, Layout.WellShaped, Linked, MapRight, Room, Located;
      if |hashes| == 0 || numLeaves == 0 {
        ProveNothing(slots, hashes);
        return true, Proof([], []);
      }
      if numLeaves == 1 {
        ProveOnly(slots, hashes);
        return true, Proof([0], []);
      }
      HashesIn(hashes);
      ghost var g := ShapeOf(numLeaves);
      Shapes(numLeaves, 0);
      LayoutFits(g, TreeRows(numLeaves), numLeaves);
      ok, proof := false, Proof([], []);
      var targets: seq<nat> := [];
      for i := 0 to |hashes|
        invariant |targets| == i && forall j :: 0 <= j < i ==>
                    hashes[j] in nodeMap && At(g, ForestOf(g, slots), targets[j]) == Leaf(hashes[j])
      {
        if hashes[i] !in nodeMap {
          return;
        }
        var pos := LeafPosition(heap, roots, nodeMap, numLeaves, hashes[i], cells, g, slots);
        targets := targets + [pos];
      }
      AllKeys(hashes, nodeMap.Keys);
      OneTarget(g, slots, hashes, targets);
      LeafTargets(g, slots, hashes, targets);
      var sorted := SortPositions(targets);
      AllLeaves(g, slots, hashes, targets, sorted);
      var proofPos, _ := ProofPositions.ProofPositions(sorted, numLeaves, TreeRows(numLeaves), g);
      var proofHashes: seq<Hash> := [];
      for i := 0 to |proofPos|
        invariant |proofHashes| == i && forall j :: 0 <= j < i ==>
                  proofHashes[j] == Merkle(At(g, ForestOf(g, slots), proofPos[j]))
      {
        BesideNotEmpty(g, slots, sorted, proofPos, i);
        var hash := GetHash(heap, roots, numLeaves, proofPos[i], cells, g, slots);
        if hash == Empty {
          return;
        }
        proofHashes := proofHashes + [hash];
      }
      assert Located(slots, hashes, targets) by { IsLocated(slots, hashes, targets); }
      ok, proof := true, Proof(targets, proofHashes);
      ItProves(slots, hashes, proof);
      if NoRepeat(hashes) {
        HonestFrom(g, slots, hashes, targets, proofHashes);
      } else if Proves(slots, hashes, proof) {
        NoneTwice(slots, hashes, proof);
      }
    }

    /** Accepts what a stump with the same roots accepts, and accepts when there is nothing to verify. */
    method Verify(delHashes: seq<Hash>, proof: Proof, ghost slots: seq<Hash>) returns (ok: bool)
      requires Represents(slots) && (|delHashes| == |proof.targets| ==>
                                     Calculable(ShapeOf(numLeaves), numLeaves, Some(delHashes), proof))
      ensures ok <==> |delHashes| == 0 || !Refused(ShapeOf(numLeaves), numLeaves, delHashes, proof, RootHashes(slots))
    {
      hide Calculable, ShapeOf, RootHashes, Vacant, LeafKeys, Grove, RootTrees, Run, Matches, WellFormed, Linked,
           MapRight, GoodSlots;
      if |delHashes| == 0 {
        return true;
      }
      if |delHashes| != |proof.targets| {
        return false;
      }
      ghost var g := ShapeOf(numLeaves);
      var _, candidates := CalculateHashes(numLeaves, Some(delHashes), proof, g);
      CandidateFound(g, numLeaves, delHashes, proof);
      if |candidates| == 0 {
        return false;
      }
      var stored := GetRoots(slots);
      var matched := MatchRoots(candidates, stored);
      if matched.Some? {
        NotRefused(g, numLeaves, delHashes, proof, stored, matched.value);
      }
      ok := matched.Some?;
    }

    method DeleteFromMap(delHashes: seq<Hash>)
      modifies this`nodeMap
      ensures nodeMap == old(nodeMap) - HashSet(delHashes)
    {
      for i := 0 to |delHashes|
        invariant nodeMap == old(nodeMap) - HashSet(delHashes[..i])
      {
        assert delHashes[..i + 1] == delHashes[..i] + [delHashes[i]];
        nodeMap := nodeMap - {delHashes[i]};
      }
      assert delHashes[..|delHashes|] == delHashes;
    }

    /** Delete leaves by position, then add leaves. */
    method Modify(adds: seq<Hash>, delHashes: seq<Hash>, dels: seq<nat>, ghost g: Layout, ghost slots: seq<Hash>)
      requires Represents(slots) && GoodSlots(slots) && Deletes(g, slots, dels, HashSet(delHashes))
      requires forall i :: 0 <= i < |adds| ==> adds[i] != Empty
      modifies this
      ensures Represents(Erase(slots, HashSet(delHashes)) + adds)
    {
      hide Deletes, RootTrees, Erase, Grove, Vacant, LeafKeys, GoodSlots, HashSet, Linked, MapRight, Val;
      ghost var before := Erase(slots, HashSet(delHashes));
      EraseCount(slots, HashSet(delHashes));
      ErasedKeys(slots, HashSet(delHashes));
      DeletedCount(g, slots, dels, HashSet(delHashes));
      DeleteFromMap(delHashes);
      MapFewer(heap, cells, old(nodeMap), nodeMap);
      heap, nodeMap, cells := RemoveLeaves(heap, roots, nodeMap, dels, numLeaves, cells, g, slots, HashSet(delHashes));
      numDels := numDels + |dels|;
      assert before + adds[..0] == before;
      for i := 0 to |adds|
        invariant Represents(before + adds[..i])
      {
        assert before + adds[..i + 1] == (before + adds[..i]) + [adds[i]];
        AddedKey(before + adds[..i], adds[i]);
        if GoodSlots(before + adds[..i + 1]) { GoodBefore(before + adds[..i], adds[i]); }
        heap, next, roots, nodeMap, cells :=
          AddLeaf(heap, next, roots, nodeMap, adds[i], numLeaves, cells, before + adds[..i]);
        numLeaves := numLeaves + 1;
      }
      assert before + adds[..|adds|] == before + adds;
    }

    /** Undo a block: take its leaves off, put the empty roots back, and put the deleted leaves back.
        With as many hashes as targets, everything is as before the block. */
    method Undo(numAdds: nat, dels: seq<nat>, delHashes: seq<Hash>, prevRoots: seq<Hash>, ghost g: Layout,
                ghost slots: seq<Hash>, ghost hashes: set<Hash>, ghost adds: seq<Hash>)
      returns (ok: bool)
      requires Represents(Erase(slots, hashes) + adds) && numAdds == |adds|
      requires GoodSlots(slots) && GoodSlots(Erase(slots, hashes) + adds)
      requires Deletes(g, slots, dels, hashes) && prevRoots == RootHashes(slots)
      requires forall i :: 0 <= i < |adds| ==> adds[i] != Empty
      requires |delHashes| == |dels| ==> LeavesAt(g, ForestOf(g, slots), dels, delHashes)
      modifies this
      ensures ok <==> |delHashes| == |dels|
      ensures Represents(if ok then slots else Erase(slots, hashes))
    {
      hide Deletes, RootTrees, Erase, Drops, RootHashes, LeavesAt, ForestOf, Grove, Vacant, LeafKeys, GoodSlots,
           HashSet, LayoutFor, Linked, MapRight, Val, Room, SameLeaves;
      ghost var before := Erase(slots, hashes);
      EraseCount(slots, hashes);
      assert before + adds[..|adds|] == before + adds;
      DropsNone(RootTrees(before + adds, 0));
      ghost var trees := RootTrees(before + adds, 0);
      for i := numAdds downto 0
        invariant numLeaves == |before| + i && Room(heap, next) && Linked(heap, roots, cells)
        invariant Grove(Nodes(), trees) && Drops(trees, RootTrees(before + adds[..i], 0))
        invariant numDels == Vacant(before + adds[..i]) && nodeMap.Keys == LeafKeys(before + adds[..i])
        invariant MapRight(heap, cells, nodeMap)
      {
        assert before + adds[..i + 1] == (before + adds[..i]) + [adds[i]];
        GoodPrefix(before + adds, |before| + i + 1);
        assert (before + adds)[..|before| + i + 1] == before + adds[..i + 1];
        AddedKey(before + adds[..i], adds[i]);
        ghost var was := heap;
        heap, roots, nodeMap, cells, trees :=
          UndoSingleAdd(heap, roots, nodeMap, numLeaves, cells, trees, before + adds[..i], adds[i]);
        SameRoom(was, heap, next);
        numLeaves := numLeaves - 1;
      }
      assert before + adds[..0] == before;
      ghost var h1, ks1 := heap, cells;
      heap, next, roots, cells :=
        UndoEmptyRoots(heap, next, roots, dels, prevRoots, numLeaves, cells, trees, g, slots, hashes);
      KeysAreLeaves(slots, hashes);
      MapAfter(h1, heap, ks1, cells, nodeMap);
      if |dels| != |delHashes| {
        return false;
      }
      DeletedCount(g, slots, dels, hashes);
      heap, next, roots, nodeMap, cells :=
        UndoDels(heap, next, roots, nodeMap, dels, delHashes, numLeaves, cells, g, slots, hashes);
      numDels := numDels - |delHashes|;
      return true;
    }
  }

  lemma SameRoom(h: Heap, h': Heap, next: Ref)
    requires Room(h, next) && h'.Keys == h.Keys
    ensures Room(h', next)
  {
  }

  /** Modify and undo: all nodes with their hashes and nieces, the map and the counts are as they were.  Only the flags
      of nodes put back may differ. */
  method ModifyThenUndo(p: Pollard, adds: seq<Hash>, dels: seq<nat>, delHashes: seq<Hash>, ghost g: Layout,
                        ghost slots: seq<Hash>)
    requires p.Represents(slots) && GoodSlots(slots) && GoodSlots(Erase(slots, HashSet(delHashes)) + adds)
    requires Deletes(g, slots, dels, HashSet(delHashes)) && LeavesAt(g, ForestOf(g, slots), dels, delHashes)
    requires forall i :: 0 <= i < |adds| ==> adds[i] != Empty
    modifies p
    ensures p.Represents(slots) && StrippedAll(p.Nodes()) == StrippedAll(old(p.Nodes())) &&
            p.nodeMap.Keys == old(p.nodeMap).Keys
    ensures p.numLeaves == old(p.numLeaves) && p.numDels == old(p.numDels)
  {
    hide Deletes, RootTrees, Erase, RootHashes, LeavesAt, ForestOf, Grove, Vacant, LeafKeys, GoodSlots, HashSet,
         StrippedAll, Linked, MapRight, Room, Val;
    LeavesCount(g, ForestOf(g, slots), dels, delHashes);
    var prevRoots := p.GetRoots(slots);
    p.Modify(adds, delHashes, dels, g, slots);
    var _ := p.Undo(|adds|, dels, delHashes, prevRoots, g, slots, HashSet(delHashes), adds);
    OneGrove(p.Nodes(), old(p.Nodes()), RootTrees(slots, 0));
  }
}
