/** Finding nodes and positions by pointers. */
module LinkedSearch {
  import opened Hashes
  import opened Options
  import opened Positions
  import opened Geometry
  import opened Layouts
  import opened Forests
  import opened Slots
  import opened Uniqueness
  import opened TreeIndex
  import opened Pollards
  import opened LeafCounts
  import opened Nieces
  import opened NieceNavigation
  import opened Navigation
  import opened Cells
  import opened CellPaths
  import opened CellHashes
  import opened Links
  import opened LinkedDelete
  import opened LinkedAdd
  import opened LinkedUndo

  /** The cells of a position of the forest, its sibling, and its parent. */
  ghost predicate CellAt(g: Layout, numLeaves: nat, ks: seq<Skel>, q: nat, n: Ref, sibling: Ref, parent: Ref) {
    && Valid(TreeRows(numLeaves), RootOf(g, q))
    && var k := BiggerTrees(numLeaves, Row(TreeRows(numLeaves), RootOf(g, q)), TreeRows(numLeaves));
    && k < |ks| && n == RefOf(SubAt(ks[k], WayTo(g, q)))
    && (n != NIL ==> sibling == RefOf(SubAt(ks[k], WayBeside(g, q))))
    && (n != NIL && !g.IsRoot(q) ==> parent == RefOf(SubAt(ks[k], WayTo(g, g.Up(q)))))
    && (n == NIL ==> sibling == NIL && parent == NIL)
  }

  /** A pollard that has the trees of some slots. */
  ghost predicate HasTrees(h: Heap, roots: seq<Ref>, ks: seq<Skel>, g: Layout, slots: seq<Hash>) {
    LayoutFor(g, TreeRows(|slots|), |slots|) && Linked(h, roots, ks) && Grove(ValsOf(h, ks), RootTrees(slots, 0))
  }

  lemma {:induction false} TreesFacts(h: Heap, roots: seq<Ref>, ks: seq<Skel>, g: Layout, slots: seq<Hash>)
    requires HasTrees(h, roots, ks, g, slots)
    ensures LayoutFor(g, TreeRows(|slots|), |slots|) && Linked(h, roots, ks) &&
            Grove(ValsOf(h, ks), RootTrees(slots, 0))
    ensures var n, f := |slots|, ForestOf(g, slots);
            ForestOk(g, f) && TreesOf(g, n, f, RootTrees(slots, 0)) && |roots| == |ks| == |RootList(n, TreeRows(n), 0)|
    ensures g.WellShaped() && g.m == Pow2(TreeRows(|slots|))
  {
    hide LayoutFor, Linked, Grove, RootTrees, ForestOk, ForestOf, TreesOf, RootList, TreeRows, Layout.WellShaped;
    SlotsForest(g, slots);
    TreesCount(g, |slots|, ForestOf(g, slots), RootTrees(slots, 0));
    GroveCount(ValsOf(h, ks), RootTrees(slots, 0));
    LinkedCount(h, roots, ks);
    LayoutFits(g, TreeRows(|slots|), |slots|);
  }

  /** The node of a position, its sibling, and its parent.  For any position, they are those of the place where the
      search ends, which for a position of the forest is the position.  If it ends nowhere there is no node, for then
      the byte for the depth wraps around, and the descent is deeper than any tree. */
  method GetNode(h: Heap, roots: seq<Ref>, pos: nat, numLeaves: nat, ghost ks: seq<Skel>, ghost g: Layout,
                 ghost slots: seq<Hash>)
    returns (n: Ref, sibling: Ref, parent: Ref)
    requires numLeaves == |slots| && HasTrees(h, roots, ks, g, slots)
    ensures pos in g.nodes ==> CellAt(g, numLeaves, ks, pos, n, sibling, parent)
    ensures Landing(numLeaves, pos).Some? ==> CellAt(g, numLeaves, ks, Landing(numLeaves, pos).value, n, sibling,
                                                     parent)
    ensures Landing(numLeaves, pos).None? && TreeRows(numLeaves) < 64 ==> n == NIL
    ensures n != NIL ==> n in h
  {
    hide LayoutFor, Row, Layout.WellShaped, RootOf, TreeRows, Layout.IsRoot, RootList, BiggerTrees, WayTo, WayBeside,
         Digit, Turn, StopRow, FirstLeaf, LandsAt, WalkedTo, TurnsOf, CellAt, RootExistsOnRow, Pow2, HasTrees, Linked,
         Grove, RootTrees, ForestOk, ForestOf, TreesOf, Tied, Apart;
    ghost var rows := TreeRows(numLeaves);
    TreesFacts(h, roots, ks, g, slots);
    LandingFacts(g, numLeaves, pos);
    n, sibling, parent := NIL, NIL, NIL;
    if pos >= 2 * Pow2(TreeRows(numLeaves)) - 1 {
      return;
    }
    var ok, tree, branchLen, bits := DetectOffset(pos, numLeaves, g);
    if !ok {
      return;
    }
    RootIndex(g, numLeaves, StopRow(numLeaves, FirstLeaf(rows, pos), rows));
    LinkedAt(h, roots, ks, tree);
    n, sibling, parent := WalkDown(h, roots[tree], bits, branchLen, ks[tree]);
    WalkedIn(h, roots, ks, tree, bits, branchLen, n, sibling, parent);
    if Landing(numLeaves, pos).Some? {
      CellFound(g, numLeaves, ks, pos, tree, branchLen, bits, n, sibling, parent);
    } else if rows < 64 {
      RowBounds(rows, pos);
      NoCellThere(h, roots, ks, g, slots, tree, bits, branchLen, n, sibling, parent);
    }
  }

  lemma {:induction false} NoCellThere(h: Heap, roots: seq<Ref>, ks: seq<Skel>, g: Layout, slots: seq<Hash>, tree: nat,
                                       bits: int, len: int, n: Ref, sibling: Ref, parent: Ref)
    requires HasTrees(h, roots, ks, g, slots) && tree < |ks| && len > TreeRows(|slots|)
    requires WalkedTo(ks[tree], bits, len, n, sibling, parent)
    ensures n == NIL
  {
    hide LayoutFor, TreeRows, RootList, Digit, HasTrees, Linked, Grove, RootTrees, ForestOk, ForestOf, TreesOf, Tied,
         Apart, SubAt, Val, Follow, Refs, Layout.WellShaped;
    var turns := TurnsOf(bits, 0, len);
    TreesFacts(h, roots, ks, g, slots);
    DigitsAreTurns(bits, 0, len);
    TurnsCount(bits, 0, len);
    NotTooDeep(g, |slots|, ForestOf(g, slots), ValsOf(h, ks), RootTrees(slots, 0), tree, turns);
    LinkedIn(h, roots, ks, tree);
    SubValue(h, ks[tree], turns);
    SubRefs(ks[tree], turns);
    if SubAt(ks[tree], turns).Skel? {
      RefsParts(SubAt(ks[tree], turns));
      ValueParts(h, SubAt(ks[tree], turns));
    }
  }

  lemma {:induction false} CellFound(g: Layout, n: nat, ks: seq<Skel>, pos: nat, tree: nat, k: int, bits: int,
                                     node: Ref, sibling: Ref, parent: Ref)
    requires LayoutFor(g, TreeRows(n), n) && Valid(TreeRows(n), pos) && tree < |ks|
    requires var rows := TreeRows(n);
             var t := StopRow(n, FirstLeaf(rows, pos), rows);
             && t >= Row(rows, pos) && tree == BiggerTrees(n, t, rows) && k == MinusByte(t, Row(rows, pos))
             && (forall h: nat :: h < k ==> Digit(bits, h) == Turn(rows, LandsAt(rows, n, pos), h))
    requires WalkedTo(ks[tree], bits, k, node, sibling, parent)
    ensures CellAt(g, n, ks, LandsAt(TreeRows(n), n, pos), node, sibling, parent)
  {
    hide LayoutFor, Row, Layout.WellShaped, RootOf, TreeRows, Layout.IsRoot, BiggerTrees, SubAt, WayTo, WayBeside,
         Digit, Turn, StopRow, FirstLeaf, LandsAt, LandsOff, ParentMany;
    var rows, q := TreeRows(n), LandsAt(TreeRows(n), n, pos);
    LayoutFits(g, rows, n);
    Lands(g, rows, n, pos);
    TurnsAreWay(g, n, q, bits, k, 0);
    RiseNone(q, rows);
    WaySteps(g, q);
    if k > 0 {
      TurnsAreWay(g, n, q, bits, k, 1);
      TurnIs(rows, q, 0);
      OnTheRise(g, n, q, 0);
      var u := ParentMany(q, 1, rows);
      WaySteps(g, u);
      if k > 1 {
        TurnsAreWay(g, n, q, bits, k, 2);
        TurnIs(rows, q, 1);
        OnTheRise(g, n, q, 1);
      } else {
        SubNone(ks[tree]);
      }
    } else {
      SubNone(ks[tree]);
    }
  }

  /** The row of the lowest root that has a hash. */
  method FindRoot(h: Heap, roots: seq<Ref>, data: Hash, n: nat, ghost vals: seq<PolNode>, ghost k: nat)
    returns (rootRow: int)
    requires LowestWith(vals, data, k) && |roots| == |vals| == |RootList(n, TreeRows(n), 0)|
    requires forall i :: 0 <= i < |roots| ==> roots[i] in h && vals[i].Pol? && h[roots[i]].data == vals[i].data
    ensures 0 <= rootRow <= TreeRows(n) && RootPosition(n, rootRow, TreeRows(n)) == RootList(n, TreeRows(n), 0)[k]
  {
    hide RootList, Pow2, Shr, TreeRows;
    var rows := TreeRows(n);
    rootRow := -1;
    var rootIdx: int := |roots| - 1;
    NoRootsAbove(n, rows);
    for row := 0 to rows + 1
      invariant k <= rootIdx < |roots| && rootIdx + 1 == |RootList(n, rows, row)|
    {
      RootListStep(n, rows, row);
      RootListPrefix(n, rows, row);
      if Shr(n, row) % 2 == 1 {
        if h[roots[rootIdx]].data == data {
          rootRow := row;
          break;
        }
        rootIdx := rootIdx - 1;
      }
    }
  }

  /** One step up: whether the node is a left niece. */
  lemma {:induction false} StepUp(h: Heap, k: Skel, turns: seq<int>, i: nat, x: Ref)
    requires IsTurns(turns) && i <= |turns| && NodeOn(h, k, turns[..|turns| - i], x)
    ensures x in h && (h[x].aunt == NIL <==> i == |turns|)
    ensures i < |turns| ==>
              && h[x].aunt in h && Reversed(turns)[i] == (if h[h[x].aunt].lNiece == x then 0 else 1)
              && NodeOn(h, k, turns[..|turns| - (i + 1)], h[x].aunt)
  {
    hide NodeOn;
    var t := turns[..|turns| - i];
    if i < |turns| {
      NodeBelow(h, k, t, x);
      assert t[..|t| - 1] == turns[..|turns| - (i + 1)] && t[|t| - 1] == Reversed(turns)[i];
    } else {
      assert t == [];
      NodeTop(h, k, x);
    }
  }

  /** The data of the roots. */
  lemma {:induction false} AllRootData(h: Heap, roots: seq<Ref>, ks: seq<Skel>)
    requires Linked(h, roots, ks)
    ensures |roots| == |ks|
    ensures forall i :: 0 <= i < |roots| ==>
              roots[i] in h && ValsOf(h, ks)[i].Pol? && h[roots[i]].data == ValsOf(h, ks)[i].data
  {
    hide Linked, Val;
    LinkedCount(h, roots, ks);
    forall i | 0 <= i < |roots|
      ensures roots[i] in h && ValsOf(h, ks)[i].Pol? && h[roots[i]].data == ValsOf(h, ks)[i].data
    {
      RootDataAt(h, roots, ks, i);
    }
  }

  /** The position of a node: up from aunt to aunt, to the lowest root with the hash of the one arrived at, and down
      again. The node is in the tree `k` of the pollard, and the root found is that of the tree `m`. */
  method CalculatePosition(h: Heap, roots: seq<Ref>, numLeaves: nat, node: Ref, ghost ks: seq<Skel>, ghost g: Layout,
                           ghost slots: seq<Hash>, ghost k: nat, ghost turns: seq<int>, ghost m: nat)
    returns (pos: nat)
    requires numLeaves == |slots| && HasTrees(h, roots, ks, g, slots) && k < |ks| && IsTurns(turns)
    requires NodeOn(h, ks[k], turns, node) && Val(h, ks[k]).Pol? && LowestWith(ValsOf(h, ks), Val(h, ks[k]).data, m)
    requires Follow(ValsOf(h, ks)[m], turns).Pol?
    ensures m < |RootList(numLeaves, TreeRows(numLeaves), 0)|
    ensures pos == PlaceOf(TreeRows(numLeaves), RootList(numLeaves, TreeRows(numLeaves), 0)[m], turns)
  {
    hide LayoutFor, Row, Layout.WellShaped, RootOf, TreeRows, Layout.IsRoot, RootList, Follow, WayTo, WayBeside, Digit,
         ForestOk, At, Pow2, Kids, TreesOf, Grove, LowestWith, IsTurns, Indicates, HolderPlace, PlaceOf, IsRootNode,
         HasTrees, Linked, RootTrees, ForestOf, Val, NodeOn;
    TreesFacts(h, roots, ks, g, slots);
    ghost var f, trees, vals := ForestOf(g, slots), RootTrees(slots, 0), ValsOf(h, ks);
    AllRootData(h, roots, ks);
    LowestIn(vals, vals[k].data, m);
    var forestRows := TreeRows(numLeaves);
    var leftRightIndicator, rowsToTop, polNode := 0, 0, node;
    ghost var up := Reversed(turns);
    ReversedTurns(turns);
    IndicateNone(up, leftRightIndicator);
    assert turns[..|turns| - 0] == turns;
    StepUp(h, ks[k], turns, 0, node);
    while h[polNode].aunt != NIL
      invariant 0 <= rowsToTop <= |turns| && Indicates(up, rowsToTop, leftRightIndicator)
      invariant NodeOn(h, ks[k], turns[..|turns| - rowsToTop], polNode)
      invariant polNode in h && (h[polNode].aunt == NIL <==> rowsToTop == |turns|)
      decreases |turns| - rowsToTop
    {
      StepUp(h, ks[k], turns, rowsToTop, polNode);
      IndicateMore(up, rowsToTop, leftRightIndicator);
      if h[h[polNode].aunt].lNiece == polNode {
        leftRightIndicator := 2 * leftRightIndicator;
      } else {
        leftRightIndicator := 2 * leftRightIndicator + 1;
      }
      polNode := h[polNode].aunt;
      if rowsToTop == 0 {
        leftRightIndicator := FlipLast(leftRightIndicator);
      }
      rowsToTop := rowsToTop + 1;
      StepUp(h, ks[k], turns, rowsToTop, polNode);
    }
    ArrivedAtRoot(h, roots, ks, k, turns, polNode);
    var rootRow := FindRoot(h, roots, h[polNode].data, numLeaves, vals, m);
    ghost var r := RootList(numLeaves, forestRows, 0)[m];
    RootOfGrove(g, numLeaves, f, vals, trees, m);
    pos := RootPosition(numLeaves, rootRow, forestRows);
    PlaceStart(forestRows, r, turns);
    assert Reversed(up) == turns;
    for i := 0 to rowsToTop
      invariant pos == if i < |turns| || i == 0 then HolderPlace(forestRows, r, turns[..i])
                else PlaceOf(forestRows, r, turns)
    {
      StillBelow(g, f, forestRows, vals[m], r, turns, i);
      PlaceMore(forestRows, r, turns, i);
      IndicatedTurn(up, leftRightIndicator, i);
      var isRight := Digit(leftRightIndicator, i) == 1;
      SiblingDown(forestRows, pos);
      if isRight {
        pos := Sibling(RightChild(forestRows, pos));
      } else {
        pos := Sibling(LeftChild(forestRows, pos));
      }
    }
  }

  lemma {:induction false} ArrivedAtRoot(h: Heap, roots: seq<Ref>, ks: seq<Skel>, k: nat, turns: seq<int>, x: Ref)
    requires Linked(h, roots, ks) && k < |ks| && NodeOn(h, ks[k], turns[..|turns| - |turns|], x)
    ensures x in h && ValsOf(h, ks)[k].Pol? && h[x].data == ValsOf(h, ks)[k].data
  {
    hide Linked, NodeOn, Val;
    assert turns[..0] == [];
    NodeTop(h, ks[k], x);
    LinkedAt(h, roots, ks, k);
    RootDataAt(h, roots, ks, k);
  }

  lemma MerkleLeaf(h: Hash)
    ensures Merkle(Leaf(h)) == h
  {
  }

  lemma {:induction false} LeafPresent(g: Layout, f: Forest, x: nat, h: Hash)
    requires ForestOk(g, f) && At(g, f, x) == Leaf(h)
    ensures x in g.nodes && Present(g, f, x)
  {
    if x in g.nodes && !g.IsRoot(x) { g.NonRootFacts(x); }
  }

  lemma AbsentEmpty(g: Layout, f: Forest, p: nat)
    requires g.WellShaped() && p in g.nodes && !Present(g, f, p)
    ensures Merkle(At(g, f, p)) == Empty
  {
    hide Layout.WellShaped;
    g.NonRootFacts(p);
  }

  /** The turns to a cell. */
  lemma {:induction false} WayToCell(k: Skel, x: Ref) returns (turns: seq<int>)
    requires x in Refs(k)
    ensures IsTurns(turns) && SubAt(k, turns).Skel? && SubAt(k, turns).ref == x
    decreases k
  {
    if x == k.ref {
      turns := [];
    } else if x in Refs(k.l) {
      var rest := WayToCell(k.l, x);
      turns := [0] + rest;
      assert turns[1..] == rest;
    } else {
      var rest := WayToCell(k.r, x);
      turns := [1] + rest;
      assert turns[1..] == rest;
    }
  }

  /** A cell and the node it is. */
  lemma {:induction false} CellNode(h: Heap, roots: seq<Ref>, ks: seq<Skel>, k: nat, turns: seq<int>)
    requires Linked(h, roots, ks) && k < |ks|
    ensures Val(h, SubAt(ks[k], turns)) == Follow(ValsOf(h, ks)[k], turns)
    ensures Follow(ValsOf(h, ks)[k], turns).Pol? <==> SubAt(ks[k], turns).Skel?
    ensures RefOf(SubAt(ks[k], turns)) != NIL <==> SubAt(ks[k], turns).Skel?
    ensures SubAt(ks[k], turns).Skel? ==>
              var x := SubAt(ks[k], turns).ref;
              && x in h && h[x].data == Follow(ValsOf(h, ks)[k], turns).data && NodeOn(h, ks[k], turns, x)
              && x in Refs(ks[k])
  {
    hide Linked, SubAt, Val, Refs, Follow, Tied, Apart;
    LinkedAt(h, roots, ks, k);
    LinkedIn(h, roots, ks, k);
    SubValue(h, ks[k], turns);
    SubRefs(ks[k], turns);
    ValueThere(h, SubAt(ks[k], turns));
    if SubAt(ks[k], turns).Skel? {
      RefsParts(SubAt(ks[k], turns));
      ApartParts(SubAt(ks[k], turns));
      ValueParts(h, SubAt(ks[k], turns));
    }
  }

  /** The cell at a position where there is a node. */
  lemma {:induction false} PresentCell(h: Heap, roots: seq<Ref>, ks: seq<Skel>, g: Layout, slots: seq<Hash>, p: nat,
                                       k: nat, n: Ref, sibling: Ref, parent: Ref)
    requires HasTrees(h, roots, ks, g, slots) && p in g.nodes && CellAt(g, |slots|, ks, p, n, sibling, parent)
    requires k < |RootList(|slots|, TreeRows(|slots|), 0)| && RootList(|slots|, TreeRows(|slots|), 0)[k] == RootOf(g, p)
    ensures k < |ks| && n == RefOf(SubAt(ks[k], WayTo(g, p)))
  {
    hide HasTrees, Row, RootOf, TreeRows, RootList, WayTo, WayBeside, BiggerTrees, LayoutFor, SubAt;
    TreesFacts(h, roots, ks, g, slots);
    RootAtIndex(g, |slots|, p);
    SameRootIndex(g, |slots|, BiggerTrees(|slots|, Row(TreeRows(|slots|), RootOf(g, p)), TreeRows(|slots|)), k);
  }

  /** From a position to its node and back, for every position: the position calculated is the one given if and only
      if the tree it is in is not empty, or no smaller tree is.  Otherwise it is that of a smaller empty tree. */
  method PositionOfFound(h: Heap, roots: seq<Ref>, numLeaves: nat, p: nat, ghost ks: seq<Skel>, ghost g: Layout,
                         ghost slots: seq<Hash>, ghost k: nat)
    returns (n: Ref, q: nat)
    requires CollisionFree() && GoodSlots(slots) && numLeaves == |slots| && HasTrees(h, roots, ks, g, slots)
    requires p in g.nodes && Present(g, ForestOf(g, slots), p)
    requires k < |RootList(numLeaves, TreeRows(numLeaves), 0)| &&
             RootList(numLeaves, TreeRows(numLeaves), 0)[k] == RootOf(g, p)
    ensures n in h && h[n].data == Merkle(At(g, ForestOf(g, slots), p))
    ensures k < |ks| && n == RefOf(SubAt(ks[k], WayTo(g, p)))
    ensures q == p <==> FoundByHash(RootTrees(slots, 0), k)
    ensures q != p ==>
              g.IsRoot(p) && At(g, ForestOf(g, slots), p) == Nil && g.IsRoot(q) && At(g, ForestOf(g, slots), q) == Nil
  {
    hide LayoutFor, Row, Layout.WellShaped, RootOf, TreeRows, Layout.IsRoot, RootList, Follow, WayTo, WayBeside,
         ForestOk, At, Present, TreesOf, Grove, LowestWith, IsTurns, PlaceOf, Merkle, BiggerTrees, ForestOf, RootTrees,
         FoundByHash, CollisionFree, GoodSlots, HasTrees, Linked, SubAt, Val, Refs, NodeOn, CellAt;
    TreesFacts(h, roots, ks, g, slots);
    ghost var f, trees, vals := ForestOf(g, slots), RootTrees(slots, 0), ValsOf(h, ks);
    var sibling, parent;
    n, sibling, parent := GetNode(h, roots, p, numLeaves, ks, g, slots);
    PresentCell(h, roots, ks, g, slots, p, k, n, sibling, parent);
    PositionOfNode(g, numLeaves, f, vals, trees, p, k);
    CellNode(h, roots, ks, k, WayTo(g, p));
    ghost var m := SearchFinds(g, slots, vals, k, WayTo(g, p));
    q := CalculatePosition(h, roots, numLeaves, n, ks, g, slots, k, WayTo(g, p), m);
    if m != k {
      OtherRoot(g, slots, vals, p, k, m);
    }
  }

  /** From a node to its position and back, for every node of the pollard: the node found is the one given if and only
      if its tree is not empty, or no smaller tree is. */
  method FoundAtPosition(h: Heap, roots: seq<Ref>, numLeaves: nat, node: Ref, ghost ks: seq<Skel>, ghost g: Layout,
                         ghost slots: seq<Hash>, ghost k: nat)
    returns (p: nat, n: Ref)
    requires CollisionFree() && GoodSlots(slots) && numLeaves == |slots| && HasTrees(h, roots, ks, g, slots)
    requires k < |ks| && node in Refs(ks[k])
    ensures p in g.nodes && Present(g, ForestOf(g, slots), p) && k < |RootList(numLeaves, TreeRows(numLeaves), 0)|
    ensures RootOf(g, p) == RootList(numLeaves, TreeRows(numLeaves), 0)[k] <==> FoundByHash(RootTrees(slots, 0), k)
    ensures n == node <==> FoundByHash(RootTrees(slots, 0), k)
  {
    hide LayoutFor, Row, Layout.WellShaped, RootOf, TreeRows, Layout.IsRoot, RootList, Follow, WayTo, WayBeside,
         ForestOk, At, Present, TreesOf, Grove, LowestWith, IsTurns, PlaceOf, HolderPlace, Merkle, BiggerTrees,
         ForestOf, RootTrees, FoundByHash, CollisionFree, GoodSlots, HasTrees, Linked, SubAt, Val, Refs, NodeOn, CellAt,
         IsRootNode;
    TreesFacts(h, roots, ks, g, slots);
    ghost var f, trees, vals := ForestOf(g, slots), RootTrees(slots, 0), ValsOf(h, ks);
    ghost var turns := WayToCell(ks[k], node);
    CellNode(h, roots, ks, k, turns);
    ghost var m := SearchFinds(g, slots, vals, k, turns);
    p := CalculatePosition(h, roots, numLeaves, node, ks, g, slots, k, turns, m);
    RootOfGrove(g, numLeaves, f, vals, trees, m);
    WayOfPlace(g, f, TreeRows(numLeaves), vals[m], RootList(numLeaves, TreeRows(numLeaves), 0)[m], turns);
    var sibling, parent;
    n, sibling, parent := GetNode(h, roots, p, numLeaves, ks, g, slots);
    PresentCell(h, roots, ks, g, slots, p, m, n, sibling, parent);
    CellNode(h, roots, ks, m, turns);
    if m != k {
      LinkedAt(h, roots, ks, k);
      if RootOf(g, p) == RootList(numLeaves, TreeRows(numLeaves), 0)[k] { SameRootIndex(g, numLeaves, k, m); }
    }
  }

  /** The hash stored at a position.  For any position, it is that of the place where the search ends, which for a
      position of the forest is the position; and the empty hash if it ends nowhere. */
  method GetHash(h: Heap, roots: seq<Ref>, numLeaves: nat, pos: nat, ghost ks: seq<Skel>, ghost g: Layout,
                 ghost slots: seq<Hash>)
    returns (hash: Hash)
    requires numLeaves == |slots| && HasTrees(h, roots, ks, g, slots)
    ensures pos in g.nodes ==> hash == Merkle(At(g, ForestOf(g, slots), pos))
    ensures Landing(numLeaves, pos).Some? ==>
              Landing(numLeaves, pos).value in g.nodes &&
              hash == Merkle(At(g, ForestOf(g, slots), Landing(numLeaves, pos).value))
    ensures Landing(numLeaves, pos).None? && TreeRows(numLeaves) < 64 ==> hash == Empty
  {
    hide LayoutFor, Layout.WellShaped, TreeRows, RootTrees, ForestOf, ForestOk, At, RootList, Merkle, Landing, TreesOf,
         HasTrees, Linked, CellAt, Grove, Val, Pow2;
    TreesFacts(h, roots, ks, g, slots);
    LandingFacts(g, numLeaves, pos);
    var n, sibling, parent := GetNode(h, roots, pos, numLeaves, ks, g, slots);
    if Landing(numLeaves, pos).Some? {
      HashOfCell(h, roots, ks, g, slots, Landing(numLeaves, pos).value, n, sibling, parent);
    }
    hash := if n == NIL then Empty else h[n].data;
  }

  lemma {:induction false} WalkedIn(h: Heap, roots: seq<Ref>, ks: seq<Skel>, tree: nat, bits: int, len: int, n: Ref,
                                    sibling: Ref, parent: Ref)
    requires Linked(h, roots, ks) && tree < |ks| && WalkedTo(ks[tree], bits, len, n, sibling, parent)
    ensures n != NIL ==> n in h
  {
    hide Linked, SubAt, Digit, TurnsOf;
    CellNode(h, roots, ks, tree, TurnsOf(bits, 0, len));
  }

  lemma {:induction false} HashOfCell(h: Heap, roots: seq<Ref>, ks: seq<Skel>, g: Layout, slots: seq<Hash>, q: nat,
                                      n: Ref, sibling: Ref, parent: Ref)
    requires HasTrees(h, roots, ks, g, slots) && q in g.nodes && CellAt(g, |slots|, ks, q, n, sibling, parent)
    ensures n == NIL ==> Merkle(At(g, ForestOf(g, slots), q)) == Empty
    ensures n != NIL ==> n in h && h[n].data == Merkle(At(g, ForestOf(g, slots), q))
  {
    hide LayoutFor, Layout.WellShaped, TreeRows, RootTrees, ForestOf, ForestOk, At, RootList, RootOf, Follow, WayTo,
         WayBeside, Row, BiggerTrees, Layout.IsRoot, Merkle, Present, Kids, Grove, IsRootNode, TreesOf, HasTrees,
         Linked, SubAt, Val;
    TreesFacts(h, roots, ks, g, slots);
    RootAtIndex(g, |slots|, q);
    var k := BiggerTrees(|slots|, Row(TreeRows(|slots|), RootOf(g, q)), TreeRows(|slots|));
    RootOfGrove(g, |slots|, ForestOf(g, slots), ValsOf(h, ks), RootTrees(slots, 0), k);
    Found(g, ForestOf(g, slots), ValsOf(h, ks)[k], q);
    CellNode(h, roots, ks, k, WayTo(g, q));
    if n == NIL { AbsentEmpty(g, ForestOf(g, slots), q); }
  }

  /** The cell the map leads to is that of the leaf. */
  lemma {:induction false} LeafCell(h: Heap, roots: seq<Ref>, ks: seq<Skel>, g: Layout, slots: seq<Hash>,
                                    nodeMap: map<Hash, Ref>, hash: Hash)
    returns (k: nat, p: nat)
    requires HasTrees(h, roots, ks, g, slots) && MapRight(h, ks, nodeMap) && hash in nodeMap && hash in LeafKeys(slots)
    ensures k < |ks| && k < |RootList(|slots|, TreeRows(|slots|), 0)| && k < |RootTrees(slots, 0)|
    ensures RootList(|slots|, TreeRows(|slots|), 0)[k] == RootOf(g, p) && !RootTrees(slots, 0)[k].Nil?
    ensures p in g.nodes && Present(g, ForestOf(g, slots), p) && At(g, ForestOf(g, slots), p) == Leaf(hash)
    ensures NodeOn(h, ks[k], WayTo(g, p), nodeMap[hash]) && Follow(ValsOf(h, ks)[k], WayTo(g, p)).Pol?
  {
    hide LayoutFor, Layout.WellShaped, TreeRows, RootTrees, ForestOf, ForestOk, At, RootList, RootOf, Follow, WayTo,
         WayBeside, Row, BiggerTrees, Layout.IsRoot, Merkle, Present, Kids, Grove, IsRootNode, TreesOf, HasTrees,
         Linked, SubAt, Val, NodeOn, Refs;
    TreesFacts(h, roots, ks, g, slots);
    p := LeafSomewhere(g, TreeRows(|slots|), slots, hash);
    LeafPresent(g, ForestOf(g, slots), p, hash);
    RootAtIndex(g, |slots|, p);
    k := BiggerTrees(|slots|, Row(TreeRows(|slots|), RootOf(g, p)), TreeRows(|slots|));
    RootOfGrove(g, |slots|, ForestOf(g, slots), ValsOf(h, ks), RootTrees(slots, 0), k);
    GroveCount(ValsOf(h, ks), RootTrees(slots, 0));
    Found(g, ForestOf(g, slots), ValsOf(h, ks)[k], p);
    MerkleLeaf(hash);
    CellNode(h, roots, ks, k, WayTo(g, p));
    NotNilUp(g, ForestOf(g, slots), p);
  }

  lemma {:induction false} NotNilUp(g: Layout, f: Forest, p: nat)
    requires g.WellShaped() && p in g.nodes && !At(g, f, p).Nil?
    ensures !At(g, f, RootOf(g, p)).Nil?
    decreases 2 * g.m - p
  {
    hide Layout.WellShaped;
    if g.IsRoot(p) {
      RootOfRoot(g, p);
    } else {
      g.NonRootFacts(p);
      RootOfUp(g, p);
      NotNilUp(g, f, g.Up(p));
    }
  }

  /** The position of a leaf, found from the node the map leads to. */
  method LeafPosition(h: Heap, roots: seq<Ref>, nodeMap: map<Hash, Ref>, numLeaves: nat, hash: Hash,
                      ghost ks: seq<Skel>, ghost g: Layout, ghost slots: seq<Hash>)
    returns (pos: nat)
    requires CollisionFree() && GoodSlots(slots) && numLeaves == |slots| && HasTrees(h, roots, ks, g, slots)
    requires MapRight(h, ks, nodeMap) && hash in nodeMap && hash in LeafKeys(slots)
    ensures At(g, ForestOf(g, slots), pos) == Leaf(hash)
  {
    hide LayoutFor, Layout.WellShaped, TreeRows, RootTrees, ForestOf, ForestOk, At, RootList, RootOf, Follow, WayTo,
         Grove, TreesOf, HasTrees, Linked, Val, NodeOn, Refs, MapRight, LeafKeys, GoodSlots, CollisionFree, PlaceOf,
         LowestWith, IsTurns, Present, SubAt;
    TreesFacts(h, roots, ks, g, slots);
    ghost var k, p := LeafCell(h, roots, ks, g, slots, nodeMap, hash);
    PositionOfNode(g, numLeaves, ForestOf(g, slots), ValsOf(h, ks), RootTrees(slots, 0), p, k);
    LowestIff(g, slots, ValsOf(h, ks), k);
    pos := CalculatePosition(h, roots, numLeaves, nodeMap[hash], ks, g, slots, k, WayTo(g, p), k);
  }

  /** The place of a cell that has a leaf hash. */
  lemma {:induction false} LeafPlace(h: Heap, roots: seq<Ref>, ks: seq<Skel>, g: Layout, slots: seq<Hash>, i: nat,
                                     x: Ref)
    returns (p: nat)
    requires HasTrees(h, roots, ks, g, slots) && i < |ks| && x in Refs(ks[i]) && x in h && IsLeafHash(h[x].data)
    ensures p in g.nodes && At(g, ForestOf(g, slots), p) == Leaf(h[x].data) && x == RefOf(SubAt(ks[i], WayTo(g, p)))
    ensures i < |RootList(|slots|, TreeRows(|slots|), 0)| && RootOf(g, p) == RootList(|slots|, TreeRows(|slots|), 0)[i]
  {
    hide LayoutFor, Layout.WellShaped, TreeRows, RootTrees, ForestOf, ForestOk, At, RootList, RootOf, Follow, WayTo,
         WayBeside, Layout.IsRoot, Merkle, Present, Kids, Grove, IsRootNode, TreesOf, HasTrees, Linked, SubAt, Val,
         NodeOn, Refs, IsTurns, PlaceOf, HolderPlace, IsLeafHash, Pow2;
    TreesFacts(h, roots, ks, g, slots);
    var f, vals := ForestOf(g, slots), ValsOf(h, ks);
    var turns := WayToCell(ks[i], x);
    CellNode(h, roots, ks, i, turns);
    RootOfGrove(g, |slots|, f, vals, RootTrees(slots, 0), i);
    var r := RootList(|slots|, TreeRows(|slots|), 0)[i];
    WayOfPlace(g, f, TreeRows(|slots|), vals[i], r, turns);
    p := PlaceOf(TreeRows(|slots|), r, turns);
    Found(g, f, vals[i], p);
    LeafTree(At(g, f, p), h[x].data);
  }

  /** A leaf hash is in one cell. */
  lemma {:induction false} LeafOnce(h: Heap, roots: seq<Ref>, ks: seq<Skel>, g: Layout, slots: seq<Hash>, i: nat,
                                    x: Ref, j: nat, y: Ref)
    requires HasTrees(h, roots, ks, g, slots) && GoodSlots(slots) && i < |ks| && j < |ks| && x in Refs(ks[i]) && x in h
    requires y in Refs(ks[j]) && y in h && h[x].data == h[y].data && IsLeafHash(h[x].data)
    ensures x == y
  {
    hide LayoutFor, Layout.WellShaped, TreeRows, RootTrees, ForestOf, ForestOk, At, RootList, RootOf, WayTo, TreesOf,
         HasTrees, Linked, SubAt, Refs, IsLeafHash, GoodSlots, Pow2, Grove;
    TreesFacts(h, roots, ks, g, slots);
    var p := LeafPlace(h, roots, ks, g, slots, i, x);
    var q := LeafPlace(h, roots, ks, g, slots, j, y);
    OnePlace(g, slots, p, q);
    SameRootIndex(g, |slots|, i, j);
  }

  /** Each key of a map leads to a cell that has it. */
  ghost predicate MapInto(h: Heap, ks: seq<Skel>, nodeMap: map<Hash, Ref>) {
    forall d :: d in nodeMap ==> nodeMap[d] in h && h[nodeMap[d]].data == d && CellOf(ks, nodeMap[d])
  }

  lemma {:induction false} IntoIsRight(h: Heap, roots: seq<Ref>, ks: seq<Skel>, g: Layout, slots: seq<Hash>,
                                       nodeMap: map<Hash, Ref>)
    requires HasTrees(h, roots, ks, g, slots) && GoodSlots(slots) && nodeMap.Keys == LeafKeys(slots)
    requires MapInto(h, ks, nodeMap)
    ensures MapRight(h, ks, nodeMap)
  {
    hide HasTrees, GoodSlots, LeafKeys, Refs, IsLeafHash;
    forall i, x | 0 <= i < |ks| && x in Refs(ks[i]) && x in h && h[x].data in nodeMap
      ensures nodeMap[h[x].data] == x
    {
      KeyIsLeafHash(slots, h[x].data);
      var y := nodeMap[h[x].data];
      var j :| 0 <= j < |ks| && y in Refs(ks[j]);
      LeafOnce(h, roots, ks, g, slots, i, x, j, y);
    }
  }
}
