/** Undoing a block in the full pollard, on values. */
module PollardUndo {
  import opened Hashes
  import opened Options
  import opened Positions
  import opened Geometry
  import opened Layouts
  import opened Entries
  import opened Shape
  import opened Forests
  import opened Honest
  import opened Deletion
  import opened Sequential
  import opened DeTwin
  import opened Relocation
  import opened Slots
  import opened Uniqueness
  import opened Growth
  import opened TreeIndex
  import opened Stumps
  import opened OneDeletion
  import opened Pollards
  import opened LeafCounts
  import opened Nieces
  import opened NieceEdits
  import opened NiecePollard
  import MapForest

  /** The number of roots: one for each binary digit. */
  function NumRoots(n: nat): nat {
    if n == 0 then 0 else n % 2 + NumRoots(n / 2)
  }

  lemma {:induction false} RootCount(slots: seq<Hash>, h: nat)
    ensures |RootTrees(slots, h)| == NumRoots(Shr(|slots|, h))
    decreases Shr(|slots|, h)
  {
    var k := Shr(|slots|, h);
    if k > 0 {
      RootCount(slots, h + 1);
      assert Shr(|slots|, h + 1) == k / 2;
    }
  }

  /** The row of the lowest root is where the carry of the last leaf stopped. */
  lemma {:induction false} LowestIsCarry(m: nat, row: nat)
    requires m > 0 && forall j :: 0 <= j < row ==> Shr(m, j) % 2 == 0
    ensures AllOnes(m - 1, row)
    ensures Shr(m, row) % 2 == 1 ==> Shr(m - 1, row) % 2 == 0
  {
    if row > 0 {
      LowestIsCarry(m, row - 1);
      CarryShr(m - 1, row - 1);
      assert Shr(m, row - 1) % 2 == 0;
    }
    CarryShr(m - 1, row);
  }

  /** Some row has a root. */
  lemma {:induction false} SomeRoot(n: nat, k: nat)
    requires n > 0 && forall j :: 0 <= j < k ==> Shr(n, j) % 2 == 0
    ensures Shr(n, k) > 0
  {
    if k > 0 { SomeRoot(n, k - 1); assert Shr(n, k - 1) % 2 == 0; }
  }

  lemma AppendPair(roots: seq<PolNode>, trees: seq<Tree>, a: PolNode, b: PolNode, t: Tree, u: Tree)
    requires Grove(roots, trees) && IsRootNode(a, t) && IsRootNode(b, u)
    ensures Grove(roots + [a, b], trees + [t, u])
  {
    hide IsRootNode;
  }

  /** A root has nieces exactly when its tree has children; and only the root of a leaf has a leaf hash. */
  lemma {:induction false} RootKind(n: PolNode, t: Tree)
    requires IsRootNode(n, t)
    ensures n.Pol? && n.data == Merkle(t) && (n.lNiece.NoNode? <==> !t.Node?)
    ensures n.rNiece.NoNode? <==> !t.Node?
    ensures t.Node? ==> !IsLeafHash(n.data)
    ensures t.Leaf? ==> n.data == t.hash
  {
    hide IsLeafHash;
    if t.Node? {
      InnerHash(t);
      PairOfRoot(n, t.left, t.right);
    } else {
      NoKids(n, t);
    }
  }

  lemma {:induction false} LowestExists(n: nat, row: nat)
    requires n > 0 && row <= TreeRows(n) + 1 && (row <= TreeRows(n) ==> Shr(n, row) % 2 == 1)
    requires forall j :: 0 <= j < row ==> Shr(n, j) % 2 == 0
    ensures Shr(n, row) % 2 == 1
  {
    hide Pow2, TreeRows;
    if row == TreeRows(n) + 1 {
      SomeRoot(n, row);
      RowFits(n, row);
    }
  }

  lemma EmptyNode(n: PolNode)
    requires DeadEnd(n) && n.data == Empty
    ensures IsRootNode(n, Nil)
  {
  }

  lemma GroveInsert(roots: seq<PolNode>, trees: seq<Tree>, i: nat, n: PolNode)
    requires Grove(roots, trees) && i <= |trees| && IsRootNode(n, Nil)
    ensures |roots| == |trees| && Grove(roots[..i] + [n] + roots[i..], trees[..i] + [Nil] + trees[i..])
  {
    hide IsRootNode;
  }

  /** A root that was not left out is empty exactly when its tree is. */
  lemma {:induction false} GroveAt(roots: seq<PolNode>, trees: seq<Tree>, target: seq<Tree>, i: nat)
    requires Grove(roots, trees) && i < |trees| && i <= |target| && Drops(trees[i..], target[i..])
    requires forall k :: 0 <= k < |target| ==> LeavesOk(target[k])
    ensures roots[i].Pol? && (roots[i].data == Empty <==> trees[i].Nil?)
  {
    hide Drops, IsRootNode, LeavesOk;
    assert forall k :: 0 <= k < |target| - i ==> target[i..][k] == target[i + k];
    DropsOk(trees[i..], target[i..], 0);
    assert trees[i..][0] == trees[i];
    EmptyRoot(roots[i], trees[i]);
  }

  lemma {:induction false} DropsOk(a: seq<Tree>, b: seq<Tree>, k: nat)
    requires Drops(a, b) && k < |a| && forall i :: 0 <= i < |b| ==> LeavesOk(b[i])
    ensures LeavesOk(a[k])
    decreases |b|
  {
    hide LeavesOk;
    assert forall i :: 0 <= i < |b| - 1 ==> b[1..][i] == b[i + 1];
    if b[0].Nil? && Drops(a, b[1..]) {
      DropsOk(a, b[1..], k);
    } else if k > 0 {
      DropsOk(a[1..], b[1..], k - 1);
    }
  }

  lemma NextRoots(target: seq<Tree>, roots: seq<Tree>, i: nat, rest: seq<Tree>)
    requires i < |target| && i < |roots| && roots[..i] == target[..i] && roots[i] == target[i]
    requires roots[i + 1..] == rest || (|rest| > 0 && roots[i + 1..] == rest[1..])
    ensures roots[..i + 1] == target[..i + 1]
  {
    assert roots[..i + 1] == roots[..i] + [roots[i]] && target[..i + 1] == target[..i] + [target[i]];
  }

  /** The roots before the block, with those empty that the block deleted. */
  method MarkDeleted(prevRoots: seq<Hash>, ds: seq<nat>, n: nat, ghost g: Layout) returns (copyRoots: seq<Hash>)
    requires LayoutFor(g, TreeRows(n), n) && (forall j :: 0 <= j < |ds| ==> ds[j] in g.nodes)
    requires |prevRoots| == |RootList(n, TreeRows(n), 0)|
    ensures |copyRoots| == |prevRoots|
    ensures forall k :: 0 <= k < |prevRoots| ==>
              (copyRoots[k] == Empty <==> prevRoots[k] == Empty || RootList(n, TreeRows(n), 0)[k] in ds)
  {
    hide LayoutFor, RootList, Row, RootOf, BiggerTrees, Layout.IsRoot, TreeRows;
    copyRoots := prevRoots;
    ghost var list := RootList(n, TreeRows(n), 0);
    for i := 0 to |ds|
      invariant |copyRoots| == |prevRoots|
      invariant forall k :: 0 <= k < |prevRoots| ==> (copyRoots[k] == Empty <==>
                                                        prevRoots[k] == Empty || list[k] in ds[..i])
    {
      assert ds[..i + 1] == ds[..i] + [ds[i]];
      RootTestIff(g, n, ds[i]);
      RootAtIndex(g, n, ds[i]);
      if IsRootPositionOnRow(ds[i], n, Row(TreeRows(n), ds[i])) {
        var _, tree, _, _ := DetectOffset(ds[i], n, g);
        RootPlaces(g, n, tree);
        copyRoots := copyRoots[tree := Empty];
      } else {
        forall k | 0 <= k < |list|
          ensures list[k] != ds[i]
        {
          RootPlaces(g, n, k);
        }
      }
    }
    assert ds[..|ds|] == ds;
  }

  /** A root is empty after the deletion when it was, or when it is deleted as a whole. */
  lemma {:induction false} EmptyAfter(g: Layout, slots: seq<Hash>, dels: seq<nat>, hashes: set<Hash>, ds: seq<nat>,
                                      r: nat)
    requires Deletes(g, slots, dels, hashes) && Largest(g, Elems(dels), ds) && g.IsRoot(r)
    ensures Collapse(g, Erase(slots, hashes), r).Nil? <==> Collapse(g, slots, r).Nil? || r in ds
  {
    hide LayoutFor, ForestOf, AllSolid, Erase, At, Deletable, Compact, Touched, Collapse, Gone, Separate,
         Layout.WellShaped, Rem, Layout.IsRoot, Deletes, RemoveHashes;
    var f, d := ForestOf(g, slots), Elems(dels);
    DeletesFacts(g, slots, dels, hashes);
    AtRoot(g, slots, r);
    RootNode(g, r);
    CollapseErase(g, slots, hashes, r);
    RootRemains(g, slots, dels, hashes, r);
    if Collapse(g, slots, r).Nil? {
      RemNil(g, d, r);
    } else {
      GoneIff(g, f, d, r);
    }
    assert r in ds <==> Maximal(g, d, r);
    if r in ds { GonePresent(g, f, d, r); LeafThere(g, slots, dels, hashes, r); }
  }

  lemma {:induction false} RootRemains(g: Layout, slots: seq<Hash>, dels: seq<nat>, hashes: set<Hash>, r: nat)
    requires Deletes(g, slots, dels, hashes) && g.IsRoot(r)
    ensures Collapse(g, Erase(slots, hashes), r) == Remains(g, ForestOf(g, slots), Elems(dels), r)
    ensures Present(g, ForestOf(g, slots), r)
  {
    hide LayoutFor, Erase, Deletable, Compact, Touched, Collapse, Layout.WellShaped, Rem, RemoveHashes, LeafPositions;
    var f := ForestOf(g, slots);
    DeletesFacts(g, slots, dels, hashes);
    RootNode(g, r);
    RemainsByHash(g, f, Elems(dels), hashes, r);
    AtRoot(g, slots, r);
    CollapseErase(g, slots, hashes, r);
  }

  /** What is deleted as a whole was not empty. */
  lemma {:induction false} LeafThere(g: Layout, slots: seq<Hash>, dels: seq<nat>, hashes: set<Hash>, p: nat)
    requires Deletes(g, slots, dels, hashes) && Gone(g, Elems(dels), p)
    ensures !At(g, ForestOf(g, slots), p).Nil?
  {
    hide LayoutFor, ForestOf, At, Deletable, Compact, Touched, Gone, Layout.WellShaped, Deletes;
    DeletesFacts(g, slots, dels, hashes);
    GonePresent(g, ForestOf(g, slots), Elems(dels), p);
  }

  lemma {:induction false} RootLeavesOk(g: Layout, slots: seq<Hash>, r: nat)
    requires g.WellShaped() && g.IsRoot(r)
    ensures LeavesOk(Collapse(g, slots, r))
  {
    hide Collapse, Layout.WellShaped;
    RootNode(g, r);
    CollapseFits(g, slots, r);
  }

  lemma {:induction false} RootHashEmpty(g: Layout, slots: seq<Hash>, r: nat)
    requires g.WellShaped() && g.IsRoot(r)
    ensures Merkle(Collapse(g, slots, r)) == Empty <==> Collapse(g, slots, r).Nil?
  {
    hide Collapse, Layout.WellShaped;
    RootNode(g, r);
    CollapseFits(g, slots, r);
    MerkleEmpty(Collapse(g, slots, r));
  }

  /** The trees of twins make the tree of their parent. */
  lemma {:induction false} TwinTree(g: Layout, f: Forest, d: set<nat>, l: seq<nat>, a: nat)
    requires Deletable(g, f, d) && StandsFor(g, d, l) && a in l && a % 2 == 0 && a + 1 in l
    ensures At(g, f, g.Up(a)) == Node(At(g, f, a), At(g, f, a + 1))
  {
    hide At, Gone, Above, SolidExcept, Layout.WellShaped;
    TwinsParent(g, d, l, a);
    assert Gone(g, d, a);
    GonePresent(g, f, d, a);
    NotRootBelow(g, a);
    AtUp(g, f, a);
  }

  /** What was deleted, put back into the tree it was in. */
  lemma {:induction false} PutBackTree(g: Layout, n: nat, f: Forest, d: nat)
    requires LayoutFor(g, TreeRows(n), n) && AllSolid(g, f) && d in g.nodes && !g.IsRoot(d) && !At(g, f, d).Nil?
    ensures var r, f' := RootOf(g, d), Deleted(g, f, {d});
            && Valid(TreeRows(n), r) && Valid(TreeRows(n), d) && g.IsRoot(r) && r in f && r in f'
            && InsertAt(TreeRows(n), r, At(g, f', r), d, At(g, f, d)) == f[r] && f'.Keys == f.Keys
            && (forall s :: s in f' && g.IsRoot(s) && s != r ==> f[s] == f'[s])
  {
    hide LayoutFor, Layout.WellShaped, RootOf, DeleteAt, InsertAt, Layout.IsRoot, Rem, At, Above, TreeRows, AllSolid,
         ForestOk;
    var r, f' := RootOf(g, d), Deleted(g, f, {d});
    LayoutFits(g, TreeRows(n), n);
    SolidShape(g, f);
    SolidAfter(g, f, d);
    SolidShape(g, f');
    RootOfFacts(g, d);
    RootNode(g, r);
    NotItsRoot(g, d);
    DifferOnlyAt(g, f, f', r);
    OneTree(g, n, f, d, r);
    OtherTrees(g, n, f, d);
    SolidAt(g, f, r);
    InsertDeleted(g, f, TreeRows(n), r, d);
  }

  lemma {:induction false} DifferOnlyAt(g: Layout, f: Forest, f': Forest, r: nat)
    requires ForestOk(g, f) && ForestOk(g, f') && g.IsRoot(r)
    ensures r in f && r in f' && At(g, f, r) == f[r] && At(g, f', r) == f'[r]
  {
    hide Layout.IsRoot;
    AtRootOf(g, f, r);
    AtRootOf(g, f', r);
  }

  /** What the edit of a root does. */
  lemma {:induction false} UndoneNodes(g: Layout, n: nat, f: Forest, roots: seq<PolNode>, tree: nat, d: nat,
                                       node: PolNode, bits: int, branchLen: nat)
    requires LayoutFor(g, TreeRows(n), n) && AllSolid(g, f) && d in g.nodes && !g.IsRoot(d) &&
             NodesOf(g, n, Deleted(g, f, {d}), roots)
    requires IsRootNode(node, At(g, f, d)) && !At(g, f, d).Nil? && tree < |roots| &&
             tree < |RootList(n, TreeRows(n), 0)|
    requires var u := g.Up(d);
             && u in g.nodes && RootOf(g, u) == RootOf(g, d) && RootList(n, TreeRows(n), 0)[tree] == RootOf(g, u)
             && Valid(TreeRows(n), u) && Valid(TreeRows(n), RootOf(g, u))
             && branchLen + Row(TreeRows(n), u) == Row(TreeRows(n), RootOf(g, u))
             && (forall j: nat :: j < branchLen ==> Digit(bits, j) == Turn(TreeRows(n), u, j))
    ensures var root := roots[tree];
            var e := if branchLen == 0 then SideBySide(node, root, root, d % 2 == 1, true)
                     else InsertBelow(root, RememberOf(root), bits, branchLen, node, d % 2 == 1, true);
            NodesOf(g, n, f, roots[tree := Pol(e.data, e.l, e.r, e.remember)])
  {
    hide LayoutFor, Row, Layout.WellShaped, RootOf, AllSolid, InsertAt, Layout.IsRoot, NodesOf, BiggerTrees, RootList,
         Deleted, At, TreeRows, Digit, Turn, InsertBelow, SideBySide, ForestOk, Kids, Leads, EditedTo, Merkle;
    var f', u, root := Deleted(g, f, {d}), g.Up(d), roots[tree];
    var r := RootOf(g, u);
    LayoutFits(g, TreeRows(n), n);
    SolidAfter(g, f, d);
    SolidShape(g, f');
    NodeOfRoot(g, n, f', roots, tree);
    LeadsFromRoot(g, n, u, bits, branchLen);
    MapForest.AtParent(g, f, d);
    PutBackTree(g, n, f, d);
    var e := if branchLen == 0 then SideBySide(node, root, root, d % 2 == 1, true)
             else InsertBelow(root, RememberOf(root), bits, branchLen, node, d % 2 == 1, true);
    if branchLen == 0 {
      RootOfRoot(g, u);
      SideBySideTo(node, root, root, d % 2 == 1, true, At(g, f, d), At(g, f', u));
      InsertedChild(g, TreeRows(n), u, d, At(g, f', u), At(g, f, d));
    } else {
      InsertBelowTo(g, f', TreeRows(n), root, RememberOf(root), bits, branchLen, r, u, d, node, d % 2 == 1, true,
                    At(g, f, d));
    }
    EditedRoot(e, f[r]);
    NodesReplaced(g, n, f', f, roots, tree, Pol(e.data, e.l, e.r, e.remember));
  }

  lemma {:induction false} RootPutBack(g: Layout, n: nat, f: Forest, roots: seq<PolNode>, tree: nat, d: nat,
                                       node: PolNode)
    requires LayoutFor(g, TreeRows(n), n) && AllSolid(g, f) && d in g.nodes && g.IsRoot(d) && RootOf(g, d) == d
    requires NodesOf(g, n, Deleted(g, f, {d}), roots) && IsRootNode(node, At(g, f, d))
    requires tree < |roots| && tree < |RootList(n, TreeRows(n), 0)| && RootList(n, TreeRows(n), 0)[tree] == d
    ensures NodesOf(g, n, f, roots[tree := node])
  {
    hide LayoutFor, Layout.WellShaped, RootOf, AllSolid, Layout.IsRoot, NodesOf, RootList, Deleted, At, TreeRows,
         IsRootNode, ForestOk;
    SolidShape(g, f);
    SolidAfter(g, f, d);
    SolidShape(g, Deleted(g, f, {d}));
    DifferOnlyAt(g, f, Deleted(g, f, {d}), d);
    OtherTrees(g, n, f, d);
    NodesReplaced(g, n, Deleted(g, f, {d}), f, roots, tree, node);
  }

  /** Deleted leaves with their hashes. */
  ghost predicate LeavesAt(g: Layout, f: Forest, dels: seq<nat>, delHashes: seq<Hash>) {
    |delHashes| == |dels| && forall i :: 0 <= i < |dels| ==> At(g, f, dels[i]) == Leaf(delHashes[i])
  }

  lemma LeavesCount(g: Layout, f: Forest, dels: seq<nat>, delHashes: seq<Hash>)
    requires LeavesAt(g, f, dels, delHashes)
    ensures |delHashes| == |dels|
  {
    hide At;
  }

  lemma {:induction false} AllDeleted(g: Layout, slots: seq<Hash>, dels: seq<nat>, hashes: set<Hash>, ds: seq<nat>,
                                      roots: seq<PolNode>)
    requires Deletes(g, slots, dels, hashes) && Largest(g, Elems(dels), ds) &&
             Grove(roots, RootTrees(Erase(slots, hashes), 0))
    ensures NodesOf(g, |slots|, DeletedInTurn(g, ForestOf(g, slots), ds), roots)
  {
    hide LayoutFor, Deletes, NodesOf, ForestOf, AllSolid, Deleted, Deletable, Compact, ValidTargets, RootTrees, Erase,
         Layout.WellShaped, DeletedInTurn, TreeRows, At, Largest, Layout.IsRoot, Grove;
    DeletesFacts(g, slots, dels, hashes);
    EraseCount(slots, hashes);
    LargestInTurn(g, ForestOf(g, slots), Elems(dels), ds);
    NodesOfSlots(g, Erase(slots, hashes), roots);
  }

  lemma {:induction false} InTurnRoots(g: Layout, f: Forest, ds: seq<nat>, i: nat)
    requires f.Keys == (set r | r in g.nodes && g.IsRoot(r)) && i <= |ds|
    ensures forall r :: r in DeletedInTurn(g, f, ds[..i]) <==> r in g.nodes && g.IsRoot(r)
    ensures forall r :: r in f <==> r in g.nodes && g.IsRoot(r)
  {
    hide DeletedInTurn, Layout.IsRoot;
    InTurnKeys(g, f, ds[..i]);
  }

  lemma KeysMore(hashes: seq<Hash>, i: nat)
    requires i < |hashes|
    ensures HashSet(hashes[..i + 1]) == HashSet(hashes[..i]) + {hashes[i]}
  {
    assert hashes[..i + 1] == hashes[..i] + [hashes[i]];
  }

  /** The deleted hashes are keys. */
  lemma {:induction false} DeletedKeys(g: Layout, slots: seq<Hash>, dels: seq<nat>, delHashes: seq<Hash>)
    requires g.WellShaped() && GoodSlots(slots) && LeavesAt(g, ForestOf(g, slots), dels, delHashes)
    ensures HashSet(delHashes) <= LeafKeys(slots)
  {
    hide Layout.WellShaped, GoodSlots, ForestOf, At;
    forall h | h in HashSet(delHashes)
      ensures h in LeafKeys(slots)
    {
      var i :| 0 <= i < |delHashes| && delHashes[i] == h;
      LeafOfSlots(g, slots, dels[i], h);
      LeafIsHash(g, slots, dels[i]);
    }
  }

  /** The keys that are left, with those put back, are all keys. */
  lemma {:induction false} UndoneKeys(g: Layout, slots: seq<Hash>, dels: seq<nat>, delHashes: seq<Hash>,
                                      hashes: set<Hash>)
    requires Deletes(g, slots, dels, hashes) && GoodSlots(slots) && LeavesAt(g, ForestOf(g, slots), dels, delHashes)
    ensures LeafKeys(Erase(slots, hashes)) + HashSet(delHashes) == LeafKeys(slots)
    ensures HashSet([]) == {} && HashSet(delHashes[..0]) == {}
  {
    hide LayoutFor, ForestOf, GoodSlots, At, Erase;
    LayoutFits(g, TreeRows(|slots|), |slots|);
    ErasedKeys(slots, hashes);
    DeletedKeys(g, slots, dels, delHashes);
    forall h | h in LeafKeys(slots) && h in hashes
      ensures h in HashSet(delHashes)
    {
      var x := LeafSomewhere(g, TreeRows(|slots|), slots, h);
      assert x in Elems(dels);
      var i :| 0 <= i < |dels| && dels[i] == x;
      assert delHashes[i] == h;
    }
  }
}
