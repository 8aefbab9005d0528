/** Adding to the pollard by its pointers. */
module LinkedAdd {
  import opened Hashes
  import opened Positions
  import opened Forests
  import opened Slots
  import opened Uniqueness
  import opened Growth
  import opened LeafCounts
  import opened Nieces
  import opened NieceEdits
  import opened Pollards
  import opened NiecePollard
  import opened Cells
  import opened CellHashes
  import opened CellEdits
  import opened CellInserts
  import opened Links

  /** The next cell is not in use. */
  predicate Room(h: Heap, next: Ref) {
    next != NIL && forall x :: x in h ==> x < next
  }

  lemma {:induction false} LinkedIn(h: Heap, roots: seq<Ref>, ks: seq<Skel>, i: nat)
    requires Linked(h, roots, ks) && i < |ks|
    ensures Refs(ks[i]) <= h.Keys
  {
    hide Tied, Apart, Refs;
    LinkedAt(h, roots, ks, i);
    TiedIn(h, ks[i], NIL);
  }

  /** Cells outside those of some roots change. */
  lemma {:induction false} LinkedBeyond(h: Heap, h': Heap, s: set<Ref>, roots: seq<Ref>, ks: seq<Skel>)
    requires Linked(h, roots, ks) && Beyond(h, h', s) && forall i :: 0 <= i < |ks| ==> Refs(ks[i]) !! s
    ensures Linked(h', roots, ks) && ValsOf(h', ks) == ValsOf(h, ks)
  {
    hide Tied, Apart, Refs, Val;
    forall i | 0 <= i < |ks|
      ensures Tied(h', ks[i], NIL) && Val(h', ks[i]) == Val(h, ks[i])
    {
      LinkedAt(h, roots, ks, i);
      KeepTied(h, h', s, ks[i], NIL);
    }
  }

  /** One more root. */
  lemma {:induction false} LinkedMore(h: Heap, roots: seq<Ref>, ks: seq<Skel>, y: Skel)
    requires Linked(h, roots, ks) && y.Skel? && Tied(h, y, NIL) && Apart(y)
    requires forall i :: 0 <= i < |ks| ==> Refs(ks[i]) !! Refs(y)
    ensures Linked(h, roots + [y.ref], ks + [y]) && ValsOf(h, ks + [y]) == ValsOf(h, ks) + [Val(h, y)]
  {
    hide Tied, Apart, Refs, Val;
  }

  /** All roots but the last. */
  lemma {:induction false} LinkedLess(h: Heap, roots: seq<Ref>, ks: seq<Skel>)
    requires Linked(h, roots, ks) && |ks| > 0
    ensures |roots| == |ks| && Linked(h, roots[..|roots| - 1], ks[..|ks| - 1])
    ensures ValsOf(h, ks) == ValsOf(h, ks[..|ks| - 1]) + [Val(h, ks[|ks| - 1])]
    ensures forall i :: 0 <= i < |ks| - 1 ==> Refs(ks[i]) !! Refs(ks[|ks| - 1])
  {
    hide Tied, Apart, Refs, Val;
  }

  /** A root and a node that hangs from nowhere. */
  lemma {:induction false} BothApart(h: Heap, roots: seq<Ref>, ks: seq<Skel>, next: Ref)
    requires Linked(h, roots, ks) && |ks| >= 2 && Room(h, next)
    ensures TwoTrees(h, ks[|ks| - 2], ks[|ks| - 1], next)
  {
    hide Tied, Apart, Refs;
    LinkedAt(h, roots, ks, |ks| - 2);
    LinkedAt(h, roots, ks, |ks| - 1);
  }

  /** Two roots joined into a new one. */
  lemma {:induction false} Joined(h: Heap, h': Heap, roots: seq<Ref>, ks: seq<Skel>, p: Ref, y: Skel)
    requires Linked(h, roots, ks) && |ks| >= 2 && p !in h && y.Skel? && y.ref == p && Tied(h', y, NIL) && Apart(y)
    requires var a, b := ks[|ks| - 2], ks[|ks| - 1];
             Refs(y) == Refs(a) + Refs(b) + {p} && Beyond(h, h', Refs(a) + Refs(b))
    ensures |roots| == |ks| && Linked(h', roots[..|roots| - 2] + [p], ks[..|ks| - 2] + [y])
    ensures ValsOf(h', ks[..|ks| - 2] + [y]) == ValsOf(h, ks[..|ks| - 2]) + [Val(h', y)]
  {
    hide Tied, Apart, Refs, Val;
    var n := |ks|;
    var a, b := ks[n - 2], ks[n - 1];
    LinkedLess(h, roots, ks);
    LinkedLess(h, roots[..n - 1], ks[..n - 1]);
    assert ks[..n - 1][..n - 2] == ks[..n - 2] && roots[..n - 1][..n - 2] == roots[..n - 2];
    var rest := ks[..n - 2];
    forall i | 0 <= i < |rest|
      ensures Refs(rest[i]) !! Refs(a) + Refs(b) && p !in Refs(rest[i])
    {
      assert rest[i] == ks[i] && ks[..n - 1][i] == ks[i];
      LinkedIn(h, roots, ks, i);
    }
    LinkedBeyond(h, h', Refs(a) + Refs(b), roots[..n - 2], rest);
    LinkedMore(h', roots[..n - 2], rest, y);
  }

  /** A cell of some roots. */
  ghost predicate CellOf(ks: seq<Skel>, x: Ref) {
    exists i :: 0 <= i < |ks| && x in Refs(ks[i])
  }

  /** Leaf hashes are in cells that had them before. */
  ghost predicate SameLeaves(h: Heap, ks: seq<Skel>, h': Heap, ks': seq<Skel>) {
    forall x :: CellOf(ks', x) && x in h' && IsLeafHash(h'[x].data) ==>
      CellOf(ks, x) && x in h && h[x].data == h'[x].data
  }

  lemma SameTwice(h: Heap, ks: seq<Skel>, h1: Heap, ks1: seq<Skel>, h2: Heap, ks2: seq<Skel>)
    requires SameLeaves(h, ks, h1, ks1) && SameLeaves(h1, ks1, h2, ks2)
    ensures SameLeaves(h, ks, h2, ks2)
  {
    hide CellOf, IsLeafHash;
  }

  lemma {:induction false} MapAfter(h: Heap, h': Heap, ks: seq<Skel>, ks': seq<Skel>, nodeMap: map<Hash, Ref>)
    requires MapRight(h, ks, nodeMap) && SameLeaves(h, ks, h', ks') && forall d :: d in nodeMap ==> IsLeafHash(d)
    ensures MapRight(h', ks', nodeMap)
  {
    hide Refs, IsLeafHash;
    forall i, x | 0 <= i < |ks'| && x in Refs(ks'[i]) && x in h' && h'[x].data in nodeMap
      ensures nodeMap[h'[x].data] == x
    {
      assert CellOf(ks', x);
      assert CellOf(ks, x);
    }
  }

  lemma {:induction false} JoinedLeaves(h: Heap, h': Heap, ks: seq<Skel>, p: Ref, y: Skel)
    requires |ks| >= 2 && SameContents(h, h') && p in h' && p !in h && !IsLeafHash(h'[p].data) &&
             h'.Keys == h.Keys + {p}
    requires Refs(y) == Refs(ks[|ks| - 2]) + Refs(ks[|ks| - 1]) + {p}
    ensures SameLeaves(h, ks, h', ks[..|ks| - 2] + [y])
  {
    hide Refs, IsLeafHash;
    var after := ks[..|ks| - 2] + [y];
    forall x | CellOf(after, x) && x in h' && IsLeafHash(h'[x].data)
      ensures CellOf(ks, x) && x in h && h[x].data == h'[x].data
    {
      var i :| 0 <= i < |after| && x in Refs(after[i]);
      if i < |ks| - 2 {
        assert x in Refs(ks[i]);
      } else if x in Refs(ks[|ks| - 2]) {
        assert CellOf(ks, x);
      } else {
        assert x in Refs(ks[|ks| - 1]) || x == p;
      }
    }
  }

  lemma {:induction false} FewerLeaves(h: Heap, ks: seq<Skel>, ks': seq<Skel>)
    requires forall i :: 0 <= i < |ks'| ==> ks'[i] in ks
    ensures SameLeaves(h, ks, h, ks')
  {
    hide Refs, IsLeafHash;
    forall x | CellOf(ks', x)
      ensures CellOf(ks, x)
    {
      var i :| 0 <= i < |ks'| && x in Refs(ks'[i]);
      var j :| 0 <= j < |ks| && ks[j] == ks'[i];
      assert x in Refs(ks[j]);
    }
  }

  /** Forget nieces that end the tree and need not be remembered. */
  function PruneCell(h: Heap, x: Ref): Heap
    requires x in h && h[x].lNiece in h && h[x].rNiece in h
  {
    var l, r := h[h[x].lNiece], h[h[x].rNiece];
    var remember := l.remember || r.remember;
    var c := h[x].(lNiece := if l.lNiece == NIL && l.rNiece == NIL && !remember then NIL else h[x].lNiece,
                   rNiece := if r.lNiece == NIL && r.rNiece == NIL && !remember then NIL else h[x].rNiece);
    h[x := c]
  }

  lemma {:induction false} LastRoot(h: Heap, next: Ref, roots: seq<Ref>, node: Ref, ks: seq<Skel>, m: Skel)
    requires Room(h, next) && Linked(h, roots + [node], ks + [m]) && |ks| > 0
    ensures |roots| == |ks| && TwoTrees(h, ks[|ks| - 1], m, next) && node == m.ref &&
            roots[|ks| - 1] == ks[|ks| - 1].ref
    ensures node in h && roots[|ks| - 1] in h && Val(h, m).Pol? && Val(h, m).data == h[node].data
    ensures Val(h, ks[|ks| - 1]).Pol? && Val(h, ks[|ks| - 1]).data == h[roots[|ks| - 1]].data
  {
    hide Tied, Apart, Refs, Val, Linked;
    var all, cells := ks + [m], roots + [node];
    LinkedAt(h, cells, all, 0);
    assert all[|all| - 2] == ks[|ks| - 1] && all[|all| - 1] == m;
    BothApart(h, cells, all, next);
    LinkedAt(h, cells, all, |all| - 2);
    LinkedAt(h, cells, all, |all| - 1);
    LinkedIn(h, cells, all, |all| - 2);
    LinkedIn(h, cells, all, |all| - 1);
    ValueParts(h, m);
    ValueParts(h, ks[|ks| - 1]);
  }

  /** An empty root is left out. */
  lemma {:induction false} Dropped(h: Heap, roots: seq<Ref>, node: Ref, ks: seq<Skel>, m: Skel)
    requires Linked(h, roots + [node], ks + [m]) && |ks| > 0
    ensures |roots| == |ks| && Linked(h, roots[..|roots| - 1] + [node], ks[..|ks| - 1] + [m])
    ensures SameLeaves(h, ks + [m], h, ks[..|ks| - 1] + [m])
  {
    hide Tied, Apart, Refs, Val, SameLeaves;
    var all, cells := ks + [m], roots + [node];
    LinkedLess(h, cells, all);
    assert all[..|all| - 1] == ks && cells[..|cells| - 1] == roots;
    LinkedLess(h, roots, ks);
    LinkedAt(h, cells, all, |all| - 1);
    var few := ks[..|ks| - 1];
    forall i | 0 <= i < |few|
      ensures Refs(few[i]) !! Refs(m)
    {
      assert all[i] == few[i];
    }
    LinkedMore(h, roots[..|roots| - 1], few, m);
    var rest := few + [m];
    forall i | 0 <= i < |rest|
      ensures rest[i] in all
    {
      if i < |ks| - 1 { assert rest[i] == all[i]; } else { assert rest[i] == all[|all| - 1]; }
    }
    FewerLeaves(h, all, rest);
  }

  lemma {:induction false} AllRoots(h: Heap, roots: seq<Ref>, node: Ref, ks: seq<Skel>, m: Skel)
    requires Linked(h, roots + [node], ks + [m])
    ensures ValsOf(h, ks + [m]) == ValsOf(h, ks) + [Val(h, m)]
  {
    hide Linked, Val;
  }

  /** A root and a node were joined. */
  lemma {:induction false} NextNode(h: Heap, h': Heap, next: Ref, roots: seq<Ref>, node: Ref, ks: seq<Skel>, m: Skel,
                                    t: Tree, u: Tree)
    requires Room(h, next) && Linked(h, roots + [node], ks + [m]) && |ks| > 0 && |roots| == |ks|
    requires IsRootNode(Val(h, ks[|ks| - 1]), t) && IsRootNode(Val(h, m), u) && RememberOf(Val(h, m))
    requires var k := ks[|ks| - 1];
             && k.Skel? && m.Skel? && k.ref in h && m.ref in h
             && var y := Crossed(next, 0, k, m);
             && Tied(h', y, NIL) && Apart(y) && Refs(y) == Refs(k) + Refs(m) + {next} && h'.Keys == h.Keys + {next}
             && Beyond(h, h', Refs(k) + Refs(m)) && SameContents(h, h')
             && h'[next].data == ParentHash(h[k.ref].data, h[m.ref].data)
             && Val(h', y) == Pol(h'[next].data, WithNieces(Val(h, k), Val(h, m.l), Val(h, m.r)),
                                  WithNieces(Val(h, m), Val(h, k.l), Val(h, k.r)), true)
    ensures var k := ks[|ks| - 1];
            var y := Crossed(next, 0, k, m);
            && Linked(h', roots[..|roots| - 1] + [next], ks[..|ks| - 1] + [y]) && Room(h', next + 1)
            && ValsOf(h', ks[..|ks| - 1]) == ValsOf(h, ks[..|ks| - 1]) && IsRootNode(Val(h', y), Node(t, u))
            && RememberOf(Val(h', y)) && SameLeaves(h, ks + [m], h', ks[..|ks| - 1] + [y])
            && h'[next].lNiece in h' && h'[next].rNiece in h' && PruneCell(h', next) == h'
  {
    hide Tied, Apart, Refs, Val, SameLeaves, IsRootNode, IsLeafHash, Linked;
    var k := ks[|ks| - 1];
    var y := Crossed(next, 0, k, m);
    var all, cells := ks + [m], roots + [node];
    assert all[|all| - 2] == k && all[|all| - 1] == m && all[..|all| - 2] == ks[..|ks| - 1];
    assert cells[..|cells| - 2] == roots[..|roots| - 1];
    Joined(h, h', cells, all, next, y);
    InnerNotLeaf(h[k.ref].data, h[m.ref].data);
    JoinedLeaves(h, h', all, next, y);
    SameVals(h, h', ks[..|ks| - 1], y);
    JoinedValue(h, k, m, t, u, Val(h', y));
    NothingPruned(h', y);
  }

  lemma {:induction false} SameVals(h: Heap, h': Heap, ks: seq<Skel>, y: Skel)
    requires ValsOf(h', ks + [y]) == ValsOf(h, ks) + [Val(h', y)]
    ensures ValsOf(h', ks) == ValsOf(h, ks)
  {
    hide Val;
    forall i | 0 <= i < |ks|
      ensures Val(h', ks[i]) == Val(h, ks[i])
    {
      assert ValsOf(h', ks + [y])[i] == (ValsOf(h, ks) + [Val(h', y)])[i];
    }
  }

  lemma {:induction false} JoinedValue(h: Heap, k: Skel, m: Skel, t: Tree, u: Tree, v: PolNode)
    requires k.Skel? && m.Skel? && k.ref in h && m.ref in h && IsRootNode(Val(h, k), t) && IsRootNode(Val(h, m), u)
    requires v == Pol(ParentHash(h[k.ref].data, h[m.ref].data), WithNieces(Val(h, k), Val(h, m.l), Val(h, m.r)),
                      WithNieces(Val(h, m), Val(h, k.l), Val(h, k.r)), true)
    ensures IsRootNode(v, Node(t, u))
  {
    hide Val, Kids, IsRootNode;
    SwappedRoots(Val(h, k), Val(h, m), t, u);
    ValueOf(h, k);
    ValueOf(h, m);
  }

  lemma {:induction false} NothingPruned(h: Heap, y: Skel)
    requires y.Skel? && y.l.Skel? && y.r.Skel? && Tied(h, y, NIL) && Apart(y)
    requires y.ref in h && Val(h, y).Pol? && RememberOf(Val(h, y).rNiece)
    ensures h[y.ref].lNiece in h && h[y.ref].rNiece in h && PruneCell(h, y.ref) == h
  {
    hide Tied, Apart, Val, Refs;
    TiedIn(h, y, NIL);
    TiedParts(h, y, NIL);
    TiedParts(h, y.l, y.ref);
    TiedParts(h, y.r, y.ref);
    ValueParts(h, y);
    RefsParts(y);
    ValueOf(h, y.r);
  }

  /** Join a node with the roots in its way, like the digits of a binary counter carry; an empty root gives way.  In a
      full pollard nothing is pruned. */
  method CalculateNewRoot(h0: Heap, next0: Ref, roots0: seq<Ref>, node0: Ref, numLeaves: nat, ghost ks0: seq<Skel>,
                          ghost m0: Skel, ghost before: seq<Hash>, ghost hash: Hash)
    returns (h: Heap, next: Ref, roots: seq<Ref>, node: Ref, ghost ks: seq<Skel>, ghost m: Skel)
    requires Room(h0, next0) && Linked(h0, roots0 + [node0], ks0 + [m0])
    requires numLeaves == |before| && Grove(ValsOf(h0, ks0), RootTrees(before, 0)) && hash != Empty
    requires IsRootNode(Val(h0, m0), Leaf(hash)) && RememberOf(Val(h0, m0))
    ensures Room(h, next) && Linked(h, roots + [node], ks + [m]) && h0.Keys <= h.Keys
    ensures Grove(ValsOf(h, ks + [m]), RootTrees(before + [hash], 0)) && SameLeaves(h0, ks0 + [m0], h, ks + [m])
  {
    hide RootTrees, Block, AllOnes, Grove, IsRootNode, Shr, Linked, SameLeaves, Val, Refs, Tied, Apart;
    h, next, roots, node, ks, m := h0, next0, roots0, node0, ks0, m0;
    var row: nat := 0;
    BlockLeaf(before, hash);
    FewerLeaves(h, ks + [m], ks + [m]);
    while Shr(numLeaves, row) % 2 == 1
      invariant Room(h, next) && Linked(h, roots + [node], ks + [m]) && h0.Keys <= h.Keys
      invariant AllOnes(numLeaves, row) && Grove(ValsOf(h, ks), RootTrees(before, row))
      invariant IsRootNode(Val(h, m), Block(before + [hash], row, Shr(numLeaves, row))) && RememberOf(Val(h, m))
      invariant SameLeaves(h0, ks0 + [m0], h, ks + [m])
      decreases Shr(numLeaves, row)
    {
      CarryBlock(before, hash, row);
      CarryFull(before, hash, row);
      ShrLess(numLeaves, row);
      ghost var t, u := Block(before, row, Shr(numLeaves, row) - 1), Block(before + [hash], row, Shr(numLeaves, row));
      GroveLast(ValsOf(h, ks), RootTrees(before, row + 1), t);
      BlockOk(before, row, Shr(numLeaves, row) - 1);
      ghost var vals := ValsOf(h, ks);
      assert vals[..|vals| - 1] == ValsOf(h, ks[..|ks| - 1]);
      LastRoot(h, next, roots, node, ks, m);
      var root := roots[|roots| - 1];
      EmptyRoot(vals[|vals| - 1], t);
      NodeIsPol(Val(h, m), u);
      JoinIs(t, u);
      if h[root].data != Empty {
        ghost var k := ks[|ks| - 1];
        var data := ParentHash(h[root].data, h[node].data);
        ghost var was := h;
        h := JoinRoots(h, root, node, next, data, true, k, m);
        ghost var y := Crossed(next, 0, k, m);
        NextNode(was, h, next, roots, node, ks, m, t, u);
        SameTwice(h0, ks0 + [m0], was, ks + [m], h, ks[..|ks| - 1] + [y]);
        h := PruneCell(h, next);
        node, m := next, y;
        next := next + 1;
      } else {
        Dropped(h, roots, node, ks, m);
        SameTwice(h0, ks0 + [m0], h, ks + [m], h, ks[..|ks| - 1] + [m]);
      }
      roots, ks := roots[..|roots| - 1], ks[..|ks| - 1];
      row := row + 1;
    }
    CarryRoots(before, hash, row);
    AllRoots(h, roots, node, ks, m);
    GroveAppend(ValsOf(h, ks), RootTrees(before, row), Val(h, m), Block(before + [hash], row, Shr(numLeaves, row)));
  }

  /** The leaves of the trees are in the slots. */
  lemma {:induction false} BlockLeaves(slots: seq<Hash>, h: nat, k: nat)
    ensures LeafSet(Block(slots, h, k)) <= LeafKeys(slots)
    decreases h
  {
    if h > 0 {
      BlockLeaves(slots, h - 1, 2 * k);
      BlockLeaves(slots, h - 1, 2 * k + 1);
      LeafSetJoin(Block(slots, h - 1, 2 * k), Block(slots, h - 1, 2 * k + 1));
    }
  }

  lemma {:induction false} RootLeaves(slots: seq<Hash>, h: nat, i: nat)
    requires i < |RootTrees(slots, h)|
    ensures LeafSet(RootTrees(slots, h)[i]) <= LeafKeys(slots)
    decreases Shr(|slots|, h)
  {
    hide LeafSet, LeafKeys, Block;
    var k := Shr(|slots|, h);
    if i < |RootTrees(slots, h + 1)| {
      RootLeaves(slots, h + 1, i);
    } else {
      BlockLeaves(slots, h, k - 1);
    }
  }

  /** A cell with a leaf hash is that of a leaf of the tree. */
  lemma {:induction false} CellLeaf(h: Heap, k: Skel, t: Tree, s: Tree, x: Ref)
    requires Refs(k) <= h.Keys && Holds(Val(h, k), t, s) && x in Refs(k) && IsLeafHash(h[x].data)
    ensures h[x].data in LeafSet(t) + LeafSet(s)
    decreases s
  {
    hide IsLeafHash, Val;
    ValueParts(h, k);
    if x == k.ref {
      if t.Node? { InnerHash(t); }
      LeafNotEmpty(h[x].data);
    } else {
      if !s.Node? { NoKids(Val(h, k), s); }
      NothingThere(h, k);
      ValueNone(h, k.l);
      ValueNone(h, k.r);
      if x in Refs(k.l) {
        CellLeaf(h, k.l, s.left, s.right, x);
      } else {
        CellLeaf(h, k.r, s.right, s.left, x);
      }
    }
  }

  lemma ValueNone(h: Heap, k: Skel)
    requires Refs(k) <= h.Keys
    ensures Val(h, k).NoNode? ==> Refs(k) == {}
  {
  }

  /** Leaf hashes that are stored are those of the slots. */
  lemma {:induction false} StoredLeaf(h: Heap, roots: seq<Ref>, ks: seq<Skel>, slots: seq<Hash>, i: nat, x: Ref)
    requires Linked(h, roots, ks) && Grove(ValsOf(h, ks), RootTrees(slots, 0)) && i < |ks| && x in Refs(ks[i])
    ensures x in h && (IsLeafHash(h[x].data) ==> h[x].data in LeafKeys(slots))
  {
    hide IsLeafHash, Refs, Val, Linked, LeafSet, LeafKeys, Kids, RootTrees;
    LinkedIn(h, roots, ks, i);
    if IsLeafHash(h[x].data) {
      assert IsRootNode(ValsOf(h, ks)[i], RootTrees(slots, 0)[i]);
      CellLeaf(h, ks[i], RootTrees(slots, 0)[i], RootTrees(slots, 0)[i], x);
      RootLeaves(slots, 0, i);
    }
  }

  /** A new cell, with a hash that no other has. */
  lemma {:induction false} LeafAdded(h: Heap, next: Ref, roots: seq<Ref>, ks: seq<Skel>, hash: Hash)
    requires Room(h, next) && Linked(h, roots, ks)
    ensures var h', m := h[next := Cell(hash, NIL, NIL, NIL, true)], Skel(next, NoSkel, NoSkel);
            && Linked(h', roots + [next], ks + [m]) && Room(h', next + 1) && ValsOf(h', ks) == ValsOf(h, ks)
            && Val(h', m) == Pol(hash, NoNode, NoNode, true)
  {
    hide Tied, Apart, Refs, Val, Linked;
    var h', m := h[next := Cell(hash, NIL, NIL, NIL, true)], Skel(next, NoSkel, NoSkel);
    forall i | 0 <= i < |ks|
      ensures Refs(ks[i]) !! {next}
    {
      LinkedIn(h, roots, ks, i);
    }
    LinkedBeyond(h, h', {next}, roots, ks);
    NewLeaf(h', next, m);
    LinkedMore(h', roots, ks, m);
    ValueOf(h', m);
  }

  lemma {:induction false} NewLeaf(h: Heap, x: Ref, m: Skel)
    requires x != NIL && m == Skel(x, NoSkel, NoSkel) && x in h && h[x].lNiece == NIL && h[x].rNiece == NIL &&
             h[x].aunt == NIL
    ensures Tied(h, m, NIL) && Apart(m) && Refs(m) == {x} && Val(h, m) == Pol(h[x].data, NoNode, NoNode, h[x].remember)
  {
  }

  lemma {:induction false} LeafMapped(h: Heap, next: Ref, roots: seq<Ref>, ks: seq<Skel>, hash: Hash, before: seq<Hash>,
                                      nodeMap: map<Hash, Ref>)
    requires Room(h, next) && Linked(h, roots, ks) && MapRight(h, ks, nodeMap) && nodeMap.Keys == LeafKeys(before)
    requires GoodSlots(before + [hash]) && hash != Empty && Grove(ValsOf(h, ks), RootTrees(before, 0))
    ensures MapRight(h[next := Cell(hash, NIL, NIL, NIL, true)], ks + [Skel(next, NoSkel, NoSkel)],
                     nodeMap[hash := next])
    ensures forall d :: d in nodeMap[hash := next] ==> IsLeafHash(d)
  {
    hide Tied, Apart, Refs, Val, Linked, IsLeafHash, RootTrees, Grove, LeafKeys, GoodSlots;
    var m := Skel(next, NoSkel, NoSkel);
    var h', all, nodeMap' := h[next := Cell(hash, NIL, NIL, NIL, true)], ks + [m], nodeMap[hash := next];
    LastKey(before, hash);
    AddedKey(before, hash);
    NewLeaf(h', next, m);
    forall i, x | 0 <= i < |all| && x in Refs(all[i]) && x in h' && h'[x].data in nodeMap'
      ensures nodeMap'[h'[x].data] == x
    {
      if i < |ks| {
        StoredLeaf(h, roots, ks, before, i, x);
      }
    }
  }

  /** Add a leaf: a new cell, which the map leads to, joined with the roots in its way. */
  method AddLeaf(h0: Heap, next0: Ref, roots0: seq<Ref>, nodeMap0: map<Hash, Ref>, hash: Hash, numLeaves: nat,
                 ghost ks0: seq<Skel>, ghost before: seq<Hash>)
    returns (h: Heap, next: Ref, roots: seq<Ref>, nodeMap: map<Hash, Ref>, ghost ks: seq<Skel>)
    requires Room(h0, next0) && Linked(h0, roots0, ks0) && numLeaves == |before| && hash != Empty
    requires Grove(ValsOf(h0, ks0), RootTrees(before, 0)) && nodeMap0.Keys == LeafKeys(before)
    ensures Room(h, next) && Linked(h, roots, ks) && Grove(ValsOf(h, ks), RootTrees(before + [hash], 0))
    ensures nodeMap.Keys == LeafKeys(before + [hash])
    ensures GoodSlots(before + [hash]) && MapRight(h0, ks0, nodeMap0) ==> MapRight(h, ks, nodeMap)
  {
    hide Linked, Grove, RootTrees, LeafKeys, GoodSlots, MapRight, Val, Room, IsLeafHash, SameLeaves, IsRootNode;
    var node := next0;
    LeafAdded(h0, next0, roots0, ks0, hash);
    h := h0[node := Cell(hash, NIL, NIL, NIL, true)];
    ghost var m := Skel(node, NoSkel, NoSkel);
    nodeMap := nodeMap0[hash := node];
    AddedKey(before, hash);
    SingleLeaf(Val(h, m));
    ghost var h1 := h;
    h, next, roots, node, ks, m := CalculateNewRoot(h, next0 + 1, roots0, node, numLeaves, ks0, m, before, hash);
    roots, ks := roots + [node], ks + [m];
    if GoodSlots(before + [hash]) && MapRight(h0, ks0, nodeMap0) {
      LeafMapped(h0, next0, roots0, ks0, hash, before, nodeMap0);
      MapAfter(h1, h, ks0 + [Skel(next0, NoSkel, NoSkel)], ks, nodeMap);
    }
  }
}
