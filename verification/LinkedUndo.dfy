/** Undoing additions in the pollard by its pointers. */
module LinkedUndo {
  import opened Hashes
  import opened Positions
  import opened Geometry
  import opened Layouts
  import opened Entries
  import opened Forests
  import opened Slots
  import opened Uniqueness
  import opened Growth
  import opened Stumps
  import opened OneDeletion
  import opened Pollards
  import opened LeafCounts
  import opened Nieces
  import opened NieceNavigation
  import opened NieceEdits
  import opened NiecePollard
  import opened PollardUndo
  import opened Options
  import opened Shape
  import opened Honest
  import opened Deletion
  import opened Sequential
  import opened DeTwin
  import opened Relocation
  import opened Cells
  import opened CellHashes
  import opened CellEdits
  import opened CellInserts
  import opened Links
  import opened LinkedAdd

  /** The last root came apart into two. */
  lemma {:induction false} SplitLast(h: Heap, h': Heap, roots: seq<Ref>, ks: seq<Skel>, x: Skel, z: Skel)
    requires Linked(h, roots, ks) && |ks| > 0 && h'.Keys == h.Keys && SameContents(h, h')
    requires var k := ks[|ks| - 1];
             && x.Skel? && z.Skel? && Tied(h', x, NIL) && Tied(h', z, NIL) && Apart(x) && Apart(z) && Refs(x) !! Refs(z)
             && Refs(x) + Refs(z) <= Refs(k) && Beyond(h, h', Refs(k))
    ensures |roots| == |ks| && Linked(h', roots[..|roots| - 1] + [x.ref, z.ref], ks[..|ks| - 1] + [x, z])
    ensures ValsOf(h', ks[..|ks| - 1] + [x, z]) == ValsOf(h, ks[..|ks| - 1]) + [Val(h', x), Val(h', z)]
    ensures SameLeaves(h, ks, h', ks[..|ks| - 1] + [x, z])
  {
    hide Tied, Apart, Refs, Val, Linked, SameLeaves;
    LinkedLess(h, roots, ks);
    var rest, cells := ks[..|ks| - 1], roots[..|roots| - 1];
    assert forall i :: 0 <= i < |rest| ==> rest[i] == ks[i];
    LinkedBeyond(h, h', Refs(ks[|ks| - 1]), cells, rest);
    LinkedMore(h', cells, rest, x);
    forall i | 0 <= i < |rest + [x]|
      ensures Refs((rest + [x])[i]) !! Refs(z)
    {
    }
    LinkedMore(h', cells + [x.ref], rest + [x], z);
    assert cells + [x.ref] + [z.ref] == cells + [x.ref, z.ref] && rest + [x] + [z] == rest + [x, z];
    SplitLeaves(h, h', ks, x, z);
  }

  lemma {:induction false} SplitLeaves(h: Heap, h': Heap, ks: seq<Skel>, x: Skel, z: Skel)
    requires |ks| > 0 && h'.Keys == h.Keys && SameContents(h, h') && Refs(x) + Refs(z) <= Refs(ks[|ks| - 1])
    ensures SameLeaves(h, ks, h', ks[..|ks| - 1] + [x, z])
  {
    hide Refs, IsLeafHash;
    var after := ks[..|ks| - 1] + [x, z];
    forall c | CellOf(after, c) && c in h' && IsLeafHash(h'[c].data)
      ensures CellOf(ks, c) && c in h && h[c].data == h'[c].data
    {
      var i :| 0 <= i < |after| && c in Refs(after[i]);
      if i < |ks| - 1 {
        assert c in Refs(ks[i]);
      } else {
        assert c in Refs(ks[|ks| - 1]);
      }
    }
  }

  /** The last root is taken off. */
  lemma {:induction false} CutLast(h: Heap, h': Heap, roots: seq<Ref>, ks: seq<Skel>)
    requires Linked(h, roots, ks) && |ks| > 0 && Within(h, h', Refs(ks[|ks| - 1]))
    ensures |roots| == |ks| && Linked(h', roots[..|roots| - 1], ks[..|ks| - 1])
    ensures ValsOf(h', ks[..|ks| - 1]) == ValsOf(h, ks[..|ks| - 1]) && SameLeaves(h, ks, h', ks[..|ks| - 1])
  {
    hide Tied, Apart, Refs, Val, Linked, SameLeaves;
    LinkedLess(h, roots, ks);
    var rest, cells := ks[..|ks| - 1], roots[..|roots| - 1];
    assert forall i :: 0 <= i < |rest| ==> rest[i] == ks[i];
    LinkedBeyond(h, h', Refs(ks[|ks| - 1]), cells, rest);
    CutLeaves(h, h', ks);
  }

  lemma {:induction false} CutLeaves(h: Heap, h': Heap, ks: seq<Skel>)
    requires |ks| > 0 && h'.Keys == h.Keys && SameContents(h, h')
    ensures SameLeaves(h, ks, h', ks[..|ks| - 1])
  {
    hide Refs, IsLeafHash;
    var after := ks[..|ks| - 1];
    forall c | CellOf(after, c)
      ensures CellOf(ks, c)
    {
      var i :| 0 <= i < |after| && c in Refs(after[i]);
      assert c in Refs(ks[i]);
    }
  }

  /** The last root, with its nieces or without. */
  lemma {:induction false} LastParts(h: Heap, roots: seq<Ref>, ks: seq<Skel>, t: Tree)
    requires Linked(h, roots, ks) && |ks| > 0 && IsRootNode(Val(h, ks[|ks| - 1]), t)
    ensures var k := ks[|ks| - 1];
            && |roots| == |ks| && k.Skel? && roots[|ks| - 1] == k.ref && Tied(h, k, NIL) && Apart(k) && k.ref in h
            && k.ref != NIL && h[k.ref].data == Merkle(t) && h[k.ref].aunt == NIL &&
               (h[k.ref].lNiece != NIL <==> t.Node?)
            && (t.Node? ==> k.l.Skel? && k.r.Skel? && !IsLeafHash(h[k.ref].data)
                            && IsRootNode(WithNieces(Val(h, k.l), Val(h, k.r.l), Val(h, k.r.r)), t.left)
                            && IsRootNode(WithNieces(Val(h, k.r), Val(h, k.l.l), Val(h, k.l.r)), t.right))
            && (!t.Node? ==> h[k.ref].rNiece == NIL && CutSet(h, k.ref) <= Refs(k))
  {
    hide Tied, Apart, Refs, Val, Linked, IsRootNode, IsLeafHash;
    var k := ks[|ks| - 1];
    LinkedAt(h, roots, ks, |ks| - 1);
    TiedIn(h, k, NIL);
    DropPieces(h, k);
    ValueParts(h, k);
    NothingThere(h, k);
    RootKind(Val(h, k), t);
    RefsParts(k);
    TiedParts(h, k, NIL);
    if t.Node? {
      SwappedBack(Val(h, k), t.left, t.right);
      ValueOf(h, k.l);
      ValueOf(h, k.r);
    }
  }

  lemma MapFewer(h: Heap, ks: seq<Skel>, nodeMap: map<Hash, Ref>, nodeMap': map<Hash, Ref>)
    requires MapRight(h, ks, nodeMap) && forall d :: d in nodeMap' ==> d in nodeMap && nodeMap'[d] == nodeMap[d]
    ensures MapRight(h, ks, nodeMap')
  {
    hide Refs;
  }

  /** The last root comes apart into the two it was made of. */
  method SplitLowest(h: Heap, roots: seq<Ref>, ghost ks: seq<Skel>, ghost trees: seq<Tree>, ghost t: Tree)
    returns (h': Heap, roots': seq<Ref>, ghost ks': seq<Skel>)
    requires Linked(h, roots, ks) && t.Node? && Grove(ValsOf(h, ks), trees + [t])
    ensures Linked(h', roots', ks') && Grove(ValsOf(h', ks'), trees + [t.left, t.right])
    ensures SameLeaves(h, ks, h', ks') && h'.Keys == h.Keys
  {
    hide Linked, Val, Grove, IsRootNode, SameLeaves, Tied, Apart, Refs, Merkle, IsLeafHash;
    ghost var vals := ValsOf(h, ks);
    GroveLast(vals, trees, t);
    assert vals[..|vals| - 1] == ValsOf(h, ks[..|ks| - 1]);
    LastParts(h, roots, ks, t);
    ghost var k := ks[|ks| - 1];
    var lowestRoot := roots[|roots| - 1];
    var lNiece, rNiece := h[lowestRoot].lNiece, h[lowestRoot].rNiece;
    TiedParts(h, k, NIL);
    h' := SplitRoot(h, lowestRoot, k);
    ghost var x, z := Skel(k.l.ref, k.r.l, k.r.r), Skel(k.r.ref, k.l.l, k.l.r);
    SplitLast(h, h', roots, ks, x, z);
    AppendPair(vals[..|vals| - 1], trees, Val(h', x), Val(h', z), t.left, t.right);
    roots', ks' := roots[..|roots| - 1] + [lNiece, rNiece], ks[..|ks| - 1] + [x, z];
  }

  /** The last root is a leaf and is taken off. */
  method CutLowest(h: Heap, roots: seq<Ref>, ghost ks: seq<Skel>, ghost trees: seq<Tree>, ghost t: Tree)
    returns (h': Heap, roots': seq<Ref>, ghost ks': seq<Skel>)
    requires Linked(h, roots, ks) && !t.Node? && Grove(ValsOf(h, ks), trees + [t])
    ensures Linked(h', roots', ks') && Grove(ValsOf(h', ks'), trees) && SameLeaves(h, ks, h', ks') && h'.Keys == h.Keys
  {
    hide Linked, Val, Grove, IsRootNode, SameLeaves, Tied, Apart, Refs, Merkle, IsLeafHash, CutAt;
    ghost var vals := ValsOf(h, ks);
    GroveLast(vals, trees, t);
    assert vals[..|vals| - 1] == ValsOf(h, ks[..|ks| - 1]);
    LastParts(h, roots, ks, t);
    h' := DelNode(h, roots[|roots| - 1]);
    OnlyCut(h, h', ks[|ks| - 1]);
    CutLast(h, h', roots, ks);
    roots', ks' := roots[..|roots| - 1], ks[..|ks| - 1];
  }

  /** Take the last leaf off: its tree falls apart into the roots it was made of.  The empty roots that gave way are not
      found again. */
  method UndoSingleAdd(h0: Heap, roots0: seq<Ref>, nodeMap0: map<Hash, Ref>, numLeaves: nat, ghost ks0: seq<Skel>,
                       ghost trees0: seq<Tree>, ghost before: seq<Hash>, ghost leaf: Hash)
    returns (h: Heap, roots: seq<Ref>, nodeMap: map<Hash, Ref>, ghost ks: seq<Skel>, ghost trees: seq<Tree>)
    requires numLeaves == |before| + 1 && leaf != Empty && GoodSlots(before + [leaf]) && Linked(h0, roots0, ks0)
    requires Grove(ValsOf(h0, ks0), trees0) && Drops(trees0, RootTrees(before + [leaf], 0))
    requires nodeMap0.Keys == LeafKeys(before + [leaf]) && MapRight(h0, ks0, nodeMap0)
    ensures Linked(h, roots, ks) && Grove(ValsOf(h, ks), trees) && Drops(trees, RootTrees(before, 0))
    ensures nodeMap.Keys == LeafKeys(before) && MapRight(h, ks, nodeMap) && h.Keys == h0.Keys
  {
    hide RootTrees, Block, AllOnes, Drops, TreeRows, Shr, Grove, IsRootNode, LeafKeys, GoodSlots, IsLeafHash, Linked,
         Val, SameLeaves, MapRight, Tied, Apart, Refs, CutAt, Merkle;
    ghost var n := |before|;
    var lowest := LowestRoot(numLeaves, TreeRows(numLeaves));
    LowestExists(numLeaves, lowest);
    LowestIsCarry(numLeaves, lowest);
    CarryRoots(before, leaf, lowest);
    CarryFull(before, leaf, lowest);
    LastKey(before, leaf);
    ghost var at: nat := lowest;
    DropsLast(trees0, RootTrees(before, lowest), Block(before + [leaf], at, Shr(n, at)));
    h, roots, nodeMap, ks, trees := h0, roots0, nodeMap0, ks0, trees0;
    FewerLeaves(h0, ks0, ks0);
    var row: int := lowest;
    while row >= 0
      invariant row >= -1 && Linked(h, roots, ks) && Grove(ValsOf(h, ks), trees)
      invariant SameLeaves(h0, ks0, h, ks) && h.Keys == h0.Keys
      invariant forall d :: d in nodeMap ==> d in nodeMap0 && nodeMap[d] == nodeMap0[d]
      invariant row >= 0 ==>
                  && at <= row && AllOnes(n, at) && |trees| > 0 &&
                     trees[|trees| - 1] == Block(before + [leaf], at, Shr(n, at))
                  && Drops(trees[..|trees| - 1], RootTrees(before, at)) && nodeMap.Keys == nodeMap0.Keys
      invariant row < 0 ==> Drops(trees, RootTrees(before, 0)) && nodeMap.Keys == nodeMap0.Keys - {leaf}
    {
      ghost var t := trees[|trees| - 1];
      assert trees == trees[..|trees| - 1] + [t];
      trees := trees[..|trees| - 1];
      ghost var vals := ValsOf(h, ks);
      GroveLast(vals, trees, t);
      LastParts(h, roots, ks, t);
      ghost var j := CarryDown(before, leaf, at, trees);
      ghost var h1, ks1 := h, ks;
      MerkleOf(t);
      var lowestRoot := roots[|roots| - 1];
      nodeMap := nodeMap - {h[lowestRoot].data};
      if h[lowestRoot].lNiece != NIL {
        h, roots, ks := SplitLowest(h, roots, ks, trees, t);
        trees := trees + [t.left, t.right];
        assert trees[..|trees| - 1] == trees[..|trees| - 2] + [t.left];
        at := j;
        row := row - 1;
      } else {
        h, roots, ks := CutLowest(h, roots, ks, trees, t);
        row := -1;
      }
      SameTwice(h0, ks0, h1, ks1, h, ks);
    }
    MapAfter(h0, h, ks0, ks, nodeMap0);
    MapFewer(h, ks, nodeMap0, nodeMap);
  }

  lemma MerkleOf(t: Tree)
    ensures t.Leaf? ==> Merkle(t) == t.hash
  {
  }

  lemma OnlyCut(h: Heap, h': Heap, k: Skel)
    requires k.Skel? && k.ref in h && CutAt(h, h', k.ref) && CutSet(h, k.ref) <= Refs(k)
    ensures Within(h, h', Refs(k))
  {
    hide Refs;
  }

  /** An empty cell, a root of its own. */
  lemma {:induction false} RootInserted(h: Heap, next: Ref, roots: seq<Ref>, ks: seq<Skel>, i: nat)
    requires Room(h, next) && Linked(h, roots, ks) && i <= |ks|
    ensures |roots| == |ks|
    ensures var h', m := h[next := Cell(Empty, NIL, NIL, NIL, true)], Skel(next, NoSkel, NoSkel);
            && Linked(h', roots[..i] + [next] + roots[i..], ks[..i] + [m] + ks[i..]) && Room(h', next + 1)
            && ValsOf(h', ks[..i] + [m] + ks[i..])
               == ValsOf(h, ks)[..i] + [Pol(Empty, NoNode, NoNode, true)] + ValsOf(h, ks)[i..]
            && SameLeaves(h, ks, h', ks[..i] + [m] + ks[i..])
  {
    hide Tied, Apart, Refs, Val, SameLeaves;
    var h', m := h[next := Cell(Empty, NIL, NIL, NIL, true)], Skel(next, NoSkel, NoSkel);
    forall j | 0 <= j < |ks|
      ensures Refs(ks[j]) !! {next}
    {
      LinkedIn(h, roots, ks, j);
    }
    LinkedBeyond(h, h', {next}, roots, ks);
    NewLeaf(h', next, m);
    assert ValsOf(h', ks) == ValsOf(h, ks);
    InsertedLeaves(h, h', ks, i, m);
  }

  lemma {:induction false} InsertedLeaves(h: Heap, h': Heap, ks: seq<Skel>, i: nat, m: Skel)
    requires i <= |ks| && m.Skel? && Refs(m) == {m.ref} && m.ref !in h && m.ref in h' && h' == h[m.ref := h'[m.ref]]
    requires h'[m.ref].data == Empty
    ensures SameLeaves(h, ks, h', ks[..i] + [m] + ks[i..])
  {
    hide Refs;
    var after := ks[..i] + [m] + ks[i..];
    forall c | CellOf(after, c) && c in h' && IsLeafHash(h'[c].data)
      ensures CellOf(ks, c) && c in h && h[c].data == h'[c].data
    {
      var j :| 0 <= j < |after| && c in Refs(after[j]);
      if j < i {
        assert c in Refs(ks[j]);
      } else if j > i {
        assert c in Refs(ks[j - 1]);
      }
    }
  }

  lemma {:induction false} RootDataAt(h: Heap, roots: seq<Ref>, ks: seq<Skel>, i: nat)
    requires Linked(h, roots, ks) && i < |ks|
    ensures |roots| == |ks| && roots[i] in h && ValsOf(h, ks)[i].Pol? && ValsOf(h, ks)[i].data == h[roots[i]].data
  {
    hide Tied, Apart, Refs, Val, Linked;
    LinkedAt(h, roots, ks, i);
    LinkedIn(h, roots, ks, i);
    ValueParts(h, ks[i]);
  }

  lemma LinkedCount(h: Heap, roots: seq<Ref>, ks: seq<Skel>)
    requires Linked(h, roots, ks)
    ensures |roots| == |ks|
  {
    hide Tied, Apart, Refs;
  }

  /** Put the empty roots back where they were. */
  method PutBackEmpty(h0: Heap, next0: Ref, roots0: seq<Ref>, copyRoots: seq<Hash>, ghost ks0: seq<Skel>,
                      ghost trees0: seq<Tree>, ghost target: seq<Tree>)
    returns (h: Heap, next: Ref, roots: seq<Ref>, ghost ks: seq<Skel>)
    requires Room(h0, next0) && Linked(h0, roots0, ks0) && Grove(ValsOf(h0, ks0), trees0)
    requires Drops(trees0, target) && |copyRoots| == |target|
    requires forall k :: 0 <= k < |target| ==> LeavesOk(target[k]) && (copyRoots[k] == Empty <==> target[k].Nil?)
    ensures Room(h, next) && Linked(h, roots, ks) && Grove(ValsOf(h, ks), target) && SameLeaves(h0, ks0, h, ks)
  {
    hide Drops, Grove, LeavesOk, IsRootNode, Linked, SameLeaves, Val, Room;
    h, next, roots, ks := h0, next0, roots0, ks0;
    ghost var trees := trees0;
    FewerLeaves(h0, ks0, ks0);
    assert target[0..] == target && trees[0..] == trees;
    for i := 0 to |copyRoots|
      invariant i <= |trees| && trees[..i] == target[..i]
      invariant Room(h, next) && Linked(h, roots, ks) && Grove(ValsOf(h, ks), trees) && SameLeaves(h0, ks0, h, ks)
      invariant Drops(trees[i..], target[i..])
    {
      ghost var rest := trees[i..];
      DropsHead(rest, target[i..]);
      assert target[i..][1..] == target[i + 1..] && target[i..][0] == target[i];
      GroveCount(ValsOf(h, ks), trees);
      LinkedCount(h, roots, ks);
      if copyRoots[i] == Empty {
        ghost var h1, ks1, m := h, ks, Skel(next, NoSkel, NoSkel);
        var emptyRoot := Cell(Empty, NIL, NIL, NIL, true);
        EmptyNode(Pol(Empty, NoNode, NoNode, true));
        RootInserted(h, next, roots, ks, i);
        GroveInsert(ValsOf(h, ks), trees, i, Pol(Empty, NoNode, NoNode, true));
        SameTwice(h0, ks0, h, ks, h[next := emptyRoot], ks[..i] + [m] + ks[i..]);
        if i >= |roots| {
          assert roots + [next] == roots[..i] + [next] + roots[i..];
          h, roots := h[next := emptyRoot], roots + [next];
          ks, trees := ks[..i] + [m] + ks[i..], trees[..i] + [Nil] + trees[i..];
          next := next + 1;
        } else {
          GroveAt(ValsOf(h, ks), trees, target, i);
          RootDataAt(h, roots, ks, i);
          if h[roots[i]].data != Empty {
            h, roots := h[next := emptyRoot], roots[..i] + [next] + roots[i..];
            ks, trees := ks[..i] + [m] + ks[i..], trees[..i] + [Nil] + trees[i..];
            next := next + 1;
          }
        }
      }
      NextRoots(target, trees, i, rest);
    }
    DropsLength(trees[|target|..], target[|target|..]);
    assert trees == trees[..|target|] + trees[|target|..];
    assert trees == target;
  }

  /** Put the empty roots back: those that were empty before the block, and those it deleted. */
  method UndoEmptyRoots(h0: Heap, next0: Ref, roots0: seq<Ref>, dels: seq<nat>, prevRoots: seq<Hash>, n: nat,
                        ghost ks0: seq<Skel>, ghost trees0: seq<Tree>, ghost g: Layout, ghost slots: seq<Hash>,
                        ghost hashes: set<Hash>)
    returns (h: Heap, next: Ref, roots: seq<Ref>, ghost ks: seq<Skel>)
    requires n == |slots| && Deletes(g, slots, dels, hashes) && prevRoots == RootHashes(slots)
    requires Room(h0, next0) && Linked(h0, roots0, ks0) && Grove(ValsOf(h0, ks0), trees0)
    requires Drops(trees0, RootTrees(Erase(slots, hashes), 0))
    ensures Room(h, next) && Linked(h, roots, ks) && Grove(ValsOf(h, ks), RootTrees(Erase(slots, hashes), 0))
    ensures SameLeaves(h0, ks0, h, ks)
  {
    hide LayoutFor, Deletes, ForestOf, AllSolid, Deleted, Deletable, Compact, ValidTargets, SortPositions, Separate,
         Maximal, RootTrees, Erase, Layout.WellShaped, TreeRows, RootList, Collapse, Drops, RootHashes, Layout.IsRoot,
         LeafPositions, Grove, LeavesOk, Linked, SameLeaves, Val, Room;
    ghost var after, rows := Erase(slots, hashes), TreeRows(n);
    DeletesFacts(g, slots, dels, hashes);
    EraseCount(slots, hashes);
    RootCount(after, 0);
    ShrNone(n);
    DropsLength(trees0, RootTrees(after, 0));
    GroveCount(ValsOf(h0, ks0), trees0);
    LinkedCount(h0, roots0, ks0);
    if |roots0| >= NumRoots(n) {
      FewerLeaves(h0, ks0, ks0);
      return h0, next0, roots0, ks0;
    }
    SortPositionsFacts(dels);
    var ds := DeTwin.DeTwin(SortPositions(dels), TreeRows(n), g);
    assert Largest(g, Elems(dels), ds);
    SeparateNodes(g, ds);
    RootHashAt(g, rows, slots);
    RootTreesAt(g, rows, after, 0);
    var copyRoots := MarkDeleted(prevRoots, ds, n, g);
    forall k | 0 <= k < |copyRoots|
      ensures LeavesOk(RootTrees(after, 0)[k])
      ensures copyRoots[k] == Empty <==> RootTrees(after, 0)[k].Nil?
    {
      var r := RootList(n, rows, 0)[k];
      EmptyAfter(g, slots, dels, hashes, ds, r);
      RootHashEmpty(g, slots, r);
      RootLeavesOk(g, after, r);
    }
    h, next, roots, ks := PutBackEmpty(h0, next0, roots0, copyRoots, ks0, trees0, RootTrees(after, 0));
  }
}
