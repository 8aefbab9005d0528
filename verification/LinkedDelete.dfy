/** Deleting from the pollard by its pointers. */
module LinkedDelete {
  import opened Hashes
  import opened Positions
  import opened Entries
  import opened Shape
  import opened DeTwin
  import opened Relocation
  import opened Uniqueness
  import opened LeafCounts
  import opened Geometry
  import opened Layouts
  import opened Forests
  import opened Honest
  import opened Deletion
  import opened Sequential
  import opened TreeIndex
  import opened OneDeletion
  import opened Pollards
  import opened Slots
  import opened Nieces
  import opened NieceEdits
  import opened NieceNavigation
  import opened NiecePollard
  import opened Cells
  import opened CellPaths
  import opened CellHashes
  import opened CellEdits
  import opened CellInserts
  import opened CellValues
  import opened Links

  /** Hashes stay where they are, but for new ones of inner nodes. */
  ghost predicate LeavesStay(h: Heap, h': Heap) {
    h.Keys <= h'.Keys && forall c :: c in h ==> h'[c].data == h[c].data || !IsLeafHash(h'[c].data)
  }

  /** The turns to the sibling of a node that is deleted, at least two rows below its root. */
  ghost predicate FarBelow(h: Heap, k: Skel, w: seq<int>, t1: int, t0: int) {
    && k.Skel? && Tied(h, k, NIL) && Apart(k) && Whole(Val(h, k)) && SubAt(k, w + [t1] + [t0]).Skel?
  }

  lemma {:induction false} FarPieces(h: Heap, k: Skel, w: seq<int>, t1: int, t0: int)
    requires FarBelow(h, k, w, t1, t0)
    ensures var x := SubAt(k, w);
            && Deleting(h, x, AuntAt(k, NIL, w), t1, t0) && Wide(k, w)
            && SubAt(k, w + [t1]) == Nk(x, t1) && SubAt(k, w + [t1] + [t0]) == Nk(Nk(x, t1), t0)
            && SubAt(k, w + [t1] + [1 - t0]) == Nk(Nk(x, t1), 1 - t0) && NodeFor(k, w + [t1]) == Nk(x, 1 - t1).ref
  {
    hide SubAt, Tied, Apart, Val, Whole, Wide, Refs;
    var v := w + [t1];
    TiedIn(h, k, NIL);
    Fronts(w, t1, t0);
    WideFrom(h, k, v + [t0]);
    WideAt(k, v, |w|);
    WideAt(k, v, |v|);
    SubMore(k, w, t1);
    SubMore(k, v, t0);
    SubMore(k, v, 1 - t0);
    SubTied(h, k, NIL, w);
    SubRefs(k, w);
    WidePrefix(k, v, |w|);
  }

  lemma Fronts(w: seq<int>, t1: int, t0: int)
    ensures var v := w + [t1];
            && v[..|w|] == w && v[..|v|] == v && v[|w|] == t1 && |v| == |w| + 1
            && (v + [t0])[..|v + [t0]| - 1] == v
  {
  }

  lemma {:induction false} WidePrefix(k: Skel, turns: seq<int>, i: nat)
    requires Wide(k, turns) && i <= |turns|
    ensures Wide(k, turns[..i])
    decreases |turns|
  {
    if i > 0 {
      WidePrefix(Nk(k, turns[0]), turns[1..], i - 1);
      assert turns[..i][1..] == turns[1..][..i - 1];
    }
  }

  /** With a part replaced by another that has two nieces, there are still two nieces at every turn. */
  lemma {:induction false} WidePlug(k: Skel, w: seq<int>, y: Skel)
    requires Wide(k, w) && y.Skel? && y.l.Skel? && y.r.Skel?
    ensures Wide(Plug(k, w, y), w)
    decreases |w|
  {
    if |w| > 0 {
      WidePlug(Nk(k, w[0]), w[1..], y);
    }
  }

  /** Nothing but some cells changes; the whole stays tied, with its value; and hashes stay. */
  lemma {:induction false} CellsOff(h: Heap, h': Heap, s: set<Ref>, k: Skel)
    requires Tied(h, k, NIL) && Within(h, h', s) && Refs(k) !! s
    ensures Tied(h', k, NIL) && Val(h', k) == Val(h, k) && h'.Keys == h.Keys && SameContents(h, h') && Beyond(h, h', s)
  {
    hide Tied, Val, Refs;
    KeepTied(h, h', s, k, NIL);
  }

  lemma {:induction false} MovedNode(h: Heap, h1: Heap, x: Skel, t1: int, t0: int)
    requires x.Skel? && Nk(x, t1).Skel? && Nk(x, 1 - t1).Skel? && Nk(Nk(x, t1), t0).Skel? && Nk(Nk(x, t1), 1 - t0).Skel?
    requires Refs(x) <= h.Keys && h.Keys == h1.Keys && SameContents(h, h1)
    requires var a, b := Nk(x, t1), Nk(x, 1 - t1);
             var n, s := Nk(a, t0), Nk(a, 1 - t0);
             && Val(h1, Nk(Moved(x, t1, t0), t1)) == WithNieces(Val(h, a), Val(h, s.l), Val(h, s.r))
             && Val(h1, Nk(Moved(x, t1, t0), 1 - t1)) == WithNieces(Val(h, n), Val(h, b.l), Val(h, b.r))
    ensures Val(h1, Moved(x, t1, t0)) == MovedValue(Val(h, x), t1, t0)
  {
    hide Val, Refs;
    var a, b := Nk(x, t1), Nk(x, 1 - t1);
    var n, s := Nk(a, t0), Nk(a, 1 - t0);
    RefsParts(x);
    RefsParts(a);
    RefsParts(b);
    RefsParts(s);
    RefsParts(n);
    var y := Moved(x, t1, t0);
    PairParts(x.ref, t1, Nk(y, t1), Nk(y, 1 - t1));
    ValueOf(h, x);
    ValueOf(h, a);
    ValueOf(h, b);
    ValueOf(h, n);
    ValueOf(h, s);
    ValueOf(h1, y);
  }

  /** The sibling of the deleted node can be cut off from where it was. */
  lemma {:induction false} SiblingCut(h1: Heap, x: Skel, aunt: Ref, t1: int, t0: int)
    requires x.Skel? && Nk(x, t1).Skel? && Nk(x, 1 - t1).Skel? && Nk(Nk(x, t1), t0).Skel? && Nk(Nk(x, t1), 1 - t0).Skel?
    requires var a, s := Nk(x, t1), Nk(Nk(x, t1), 1 - t0);
             && Apart(x) && Tied(h1, Moved(x, t1, t0), aunt) && s.ref in h1 && h1[s.ref].aunt == a.ref
             && h1[s.ref].lNiece == NIL && h1[s.ref].rNiece == NIL && s.ref !in Refs(Moved(x, t1, t0))
    ensures var a, s := Nk(x, t1), Nk(Nk(x, t1), 1 - t0);
            && a.ref in h1 && a.ref != NIL && a.ref != s.ref && s.ref != NIL && CutSet(h1, s.ref) == {s.ref}
  {
    hide Tied, Apart, Refs;
    var a, s := Nk(x, t1), Nk(Nk(x, t1), 1 - t0);
    var y := Moved(x, t1, t0);
    var b, n := Nk(x, 1 - t1), Nk(a, t0);
    PairOf(x, t1);
    PairFacts(x.ref, t1, a, b);
    PairOf(a, t0);
    PairFacts(a.ref, t0, n, s);
    ApartParts(s);
    RefsParts(s);
    PairFacts(x.ref, t1, Skel(a.ref, s.l, s.r), Skel(n.ref, b.l, b.r));
    TiedNieces(h1, y, aunt, t1);
    TiedParts(h1, Skel(a.ref, s.l, s.r), x.ref);
    OwnNieces(s);
  }

  /** What moved, as a part of the whole. */
  lemma {:induction false} PartMoved(h: Heap, h1: Heap, k: Skel, w: seq<int>, t1: int, t0: int)
    requires FarBelow(h, k, w, t1, t0) && Deleting(h, SubAt(k, w), AuntAt(k, NIL, w), t1, t0) && Wide(k, w)
    requires var x := SubAt(k, w);
             var y := Moved(x, t1, t0);
             && Tied(h1, y, AuntAt(k, NIL, w)) && Apart(y) && Refs(y) <= Refs(x) && h1.Keys == h.Keys
             && Beyond(h, h1, Refs(x)) && SameContents(h, h1)
             && Nk(x, 1 - t1).ref !in Refs(y) && Nk(Nk(x, t1), 1 - t0).ref !in Refs(y)
    requires var x := SubAt(k, w);
             var a, b := Nk(x, t1), Nk(x, 1 - t1);
             var n, s := Nk(a, t0), Nk(a, 1 - t0);
             && Val(h1, Nk(Moved(x, t1, t0), t1)) == WithNieces(Val(h, a), Val(h, s.l), Val(h, s.r))
             && Val(h1, Nk(Moved(x, t1, t0), 1 - t1)) == WithNieces(Val(h, n), Val(h, b.l), Val(h, b.r))
    ensures var x := SubAt(k, w);
            var y := Moved(x, t1, t0);
            var k' := Plug(k, w, y);
            && k'.Skel? && k'.ref == k.ref && Tied(h1, k', NIL) && Apart(k') && SubAt(k', w) == y && Wide(k', w)
            && Refs(k') <= Refs(k) && Beyond(h, h1, Refs(k)) && y.Skel? && y.ref == x.ref
            && Nk(x, 1 - t1).ref !in Refs(k') && Nk(Nk(x, t1), 1 - t0).ref !in Refs(k')
            && Nk(x, 1 - t1).ref in Refs(k) && Nk(Nk(x, t1), 1 - t0).ref in Refs(k)
            && Nk(x, 1 - t1).ref != Nk(Nk(x, t1), 1 - t0).ref
            && Val(h1, k') == PlugValue(Val(h, k), w, MovedValue(Val(h, x), t1, t0))
  {
    hide Tied, Apart, Refs, Val, Whole, Wide, SubAt, PlugValue, Plug;
    var x := SubAt(k, w);
    var y := Moved(x, t1, t0);
    SubRefs(k, w);
    TiedIn(h, k, NIL);
    MovedNode(h, h1, x, t1, t0);
    Plugged(h, h1, k, NIL, w, y, {});
    WidePlug(k, w, y);
    Pieces(x, t1, t0);
    PairOf(x, t1);
    PairFacts(x.ref, t1, Nk(x, t1), Nk(x, 1 - t1));
    PairOf(Nk(x, t1), t0);
    PairFacts(Nk(x, t1).ref, t0, Nk(Nk(x, t1), t0), Nk(Nk(x, t1), 1 - t0));
    RefsParts(Nk(x, 1 - t1));
    RefsParts(Nk(Nk(x, t1), 1 - t0));
  }

  /** The node where a part begins, and the one whose children hang there. */
  lemma {:induction false} TopOn(h: Heap, k: Skel, w: seq<int>, y: Skel)
    requires k.Skel? && Tied(h, k, NIL) && Apart(k) && SubAt(k, w) == y && y.Skel? && Wide(k, w)
    ensures NodeOn(h, k, w, y.ref) && NodeOn(h, k, OwnTurns(w), NodeFor(k, w)) && NodeFor(k, w) in h && y.ref != NIL
  {
    hide Tied, Apart, Wide, SubAt, NodeFor;
    OwnNode(h, k, w, |w|);
    assert w[..|w|] == w;
    SubRefs(k, w);
    ApartParts(y);
  }

  lemma OneCell(h: Heap, h': Heap, x: Ref)
    requires x in h && x in h' && h' == h[x := h'[x]] && h'[x].data == h[x].data && h'[x].remember == h[x].remember
    ensures Within(h, h', {x})
  {
  }

  lemma {:induction false} FarDeleted(h: Heap, h1: Heap, h2: Heap, h3: Heap, h4: Heap, k: Skel, k': Skel, w: seq<int>)
    requires k'.Skel? && Tied(h3, k', NIL) && Apart(k') && Wide(k', w) && Refs(k') <= Refs(k)
    requires h1.Keys == h.Keys && h2.Keys == h.Keys && h3.Keys == h.Keys
    requires SameContents(h, h1) && SameContents(h1, h2) && SameContents(h2, h3)
    requires Beyond(h, h1, Refs(k)) && Beyond(h1, h2, Refs(k)) && Beyond(h2, h3, Refs(k))
    requires h4 == HashFrom(h3, k', RefOf(k'), w)
    ensures Tied(h4, k', NIL) && h4.Keys == h.Keys && Beyond(h, h4, Refs(k)) && LeavesStay(h, h4)
    ensures var e := Rehash(Val(h3, k'), w);
            Val(h3, k').Pol? && Val(h4, k') == Pol(e.data, e.l, e.r, Val(h3, k').remember)
  {
    hide Tied, Apart, Refs, Val, Wide, HashFrom, Rehash, IsLeafHash;
    RootHashed(h3, k', w);
    forall c | c in h3
      ensures c in h4 && (h4[c].data == h3[c].data || !IsLeafHash(h4[c].data))
    {
      NewHashes(h3, k', RefOf(k'), w, c);
    }
  }

  lemma BeyondMore(h: Heap, h': Heap, s: set<Ref>, t: set<Ref>)
    requires Beyond(h, h', s) && s <= t
    ensures Beyond(h, h', t)
  {
  }

  /** Replacing a part keeps the flag of a root. */
  lemma {:induction false} PluggedFlag(h: Heap, k: Skel, w: seq<int>, m: PolNode)
    requires Val(h, k).Pol? && m.Pol? && (|w| == 0 ==> m.remember == Val(h, k).remember)
    ensures var p := PlugValue(Val(h, k), w, m); p.Pol? && p.remember == Val(h, k).remember
  {
    hide Val;
  }

  /** Delete a node that is at least two rows below its root. */
  method DeleteFar(h: Heap, fromNode: Ref, fromNodeSib: Ref, toNode: Ref, toSib: Ref, ghost k: Skel, ghost w: seq<int>,
                   ghost t1: int, ghost t0: int)
    returns (h': Heap, ghost k': Skel)
    requires FarBelow(h, k, w, t1, t0)
    requires fromNode == RefOf(SubAt(k, w + [t1] + [t0])) && fromNodeSib == RefOf(SubAt(k, w + [t1] + [1 - t0]))
    requires toSib == RefOf(SubAt(k, w + [t1])) && toNode == NodeFor(k, w + [t1])
    ensures k'.Skel? && k'.ref == k.ref && Tied(h', k', NIL) && Apart(k') && Refs(k') <= Refs(k)
    ensures h'.Keys == h.Keys && Beyond(h, h', Refs(k)) && LeavesStay(h, h')
    ensures var e := Rehash(PlugValue(Val(h, k), w, MovedValue(Val(h, SubAt(k, w)), t1, t0)), w);
            Val(h, k).Pol? && Val(h', k') == Pol(e.data, e.l, e.r, Val(h, k).remember)
  {
    hide Tied, Apart, Refs, Val, Whole, Wide, SubAt, Within, CutSet, Rehash, PlugValue, Plug, NodeFor, LeavesStay,
         HashFrom, OnlyData;
    ghost var x := SubAt(k, w);
    FarPieces(h, k, w, t1, t0);
    ghost var y := Moved(x, t1, t0);
    h' := MoveUp(h, fromNode, fromNodeSib, toNode, toSib, x, AuntAt(k, NIL, w), t1, t0);
    ghost var h1 := h';
    k' := Plug(k, w, y);
    PartMoved(h, h1, k, w, t1, t0);
    SiblingCut(h1, x, AuntAt(k, NIL, w), t1, t0);
    h' := DelNode(h', fromNodeSib);
    ghost var h2 := h';
    CellsOff(h1, h2, {fromNodeSib}, k');
    TopOn(h2, k', w, y);
    var parentNode := GetParent(h', toNode, k', w);
    var aunt := GetSibling(h', parentNode, k', OwnTurns(w));
    if aunt == NIL {
      aunt := parentNode;
    }
    h' := h'[toNode := h'[toNode].(aunt := aunt)];
    ghost var h3 := h';
    OneCell(h2, h3, toNode);
    CellsOff(h2, h3, {toNode}, k');
    h' := HashToRoot(h', parentNode, k', w);
    BeyondMore(h1, h2, {fromNodeSib}, Refs(k));
    BeyondMore(h2, h3, {toNode}, Refs(k));
    FarDeleted(h, h1, h2, h3, h', k, k', w);
    SameFlag(h, k, w, t1, t0);
  }

  lemma {:induction false} SameFlag(h: Heap, k: Skel, w: seq<int>, t1: int, t0: int)
    requires FarBelow(h, k, w, t1, t0) && SubAt(k, w).Skel?
    ensures Val(h, k).Pol?
    ensures var p := PlugValue(Val(h, k), w, MovedValue(Val(h, SubAt(k, w)), t1, t0));
            p.Pol? && p.remember == Val(h, k).remember
  {
    hide Tied, Apart, Refs, Val, Whole, Wide, PlugValue;
    TiedIn(h, k, NIL);
    SubRefs(k, w);
    ValueParts(h, k);
    ValueParts(h, SubAt(k, w));
    PluggedFlag(h, k, w, MovedValue(Val(h, SubAt(k, w)), t1, t0));
  }

  /** The map after one root has changed: where a hash of a leaf stays, it is that of the same cell; a new one is in the
      map. */
  lemma {:induction false} MapStays(h: Heap, h': Heap, roots: seq<Ref>, ks: seq<Skel>, i: nat, y: Skel,
                                    nodeMap: map<Hash, Ref>, nodeMap': map<Hash, Ref>)
    requires Linked(h, roots, ks) && i < |ks| && MapRight(h, ks, nodeMap) && LeavesStay(h, h') && Refs(y) <= Refs(ks[i])
    requires Refs(ks[i]) <= h.Keys && Beyond(h, h', Refs(ks[i]))
    requires (forall d :: d in nodeMap' ==> d in nodeMap && nodeMap'[d] == nodeMap[d])
    requires forall d :: d in nodeMap ==> IsLeafHash(d)
    ensures MapRight(h', ks[i := y], nodeMap')
  {
    hide Tied, Apart, Refs, IsLeafHash;
    var after := ks[i := y];
    forall j, x | 0 <= j < |ks| && x in Refs(after[j]) && x in h' && h'[x].data in nodeMap'
      ensures nodeMap'[h'[x].data] == x
    {
      LinkedAt(h, roots, ks, j);
      TiedIn(h, ks[j], NIL);
      assert x in Refs(ks[j]);
    }
  }

  /** What is known of a position to be deleted, and of the way to its sibling. */
  ghost predicate DelWay(g: Layout, n: nat, f: Forest, vals: seq<PolNode>, tree: nat, d: nat, bits: int, len: nat) {
    && LayoutFor(g, TreeRows(n), n) && AllSolid(g, f) && NodesOf(g, n, f, vals)
    && d in g.nodes && !g.IsRoot(d) && !At(g, f, d).Nil? && tree < |vals| && vals[tree].Pol? && Whole(vals[tree])
    && len > 0 && Follow(vals[tree], TurnsOf(bits, 0, len)).Pol?
    && DataOf(Follow(vals[tree], TurnsOf(bits, 1, len) + [1 - Digit(bits, 0)])) == Merkle(At(g, f, d))
    && (var e := DeleteBelow(vals[tree], RememberOf(vals[tree]), bits, len);
        NodesOf(g, n, Deleted(g, f, {d}), vals[tree := Pol(e.data, e.l, e.r, e.remember)]))
  }

  lemma {:induction false} WayIs(g: Layout, n: nat, f: Forest, vals: seq<PolNode>, tree: nat, d: nat, bits: int,
                                 len: nat)
    requires LayoutFor(g, TreeRows(n), n) && AllSolid(g, f) && NodesOf(g, n, f, vals)
    requires d in g.nodes && !g.IsRoot(d) && !At(g, f, d).Nil? && tree < |vals|
    requires var q := Sibling(d);
             && q in g.nodes && Valid(TreeRows(n), q) && Valid(TreeRows(n), RootOf(g, q))
             && tree == BiggerTrees(n, Row(TreeRows(n), RootOf(g, q)), TreeRows(n))
             && len + Row(TreeRows(n), q) == Row(TreeRows(n), RootOf(g, q))
             && (forall j: nat :: j < len ==> Digit(bits, j) == Turn(TreeRows(n), q, j))
    ensures DelWay(g, n, f, vals, tree, d, bits, len)
  {
    hide LayoutFor, Row, Layout.WellShaped, RootOf, TreeRows, Layout.IsRoot, Digit, Turn, AllSolid, NodesOf, At,
         Deleted, RootList, BiggerTrees, Follow, WayTo, WayBeside, Merkle, DeleteBelow, ForestOk, IsRootNode, Whole;
    var q, rows := Sibling(d), TreeRows(n);
    SolidKnown(g, n, f, d);
    RootAtIndex(g, n, q);
    NodesCount(g, n, f, vals);
    NodeOfRoot(g, n, f, vals, tree);
    RootWhole(vals[tree], At(g, f, RootOf(g, q)));
    DeletedNodes(g, n, f, vals, tree, d, bits, len);
    TurnsAreWay(g, n, q, bits, len, 0);
    TurnsAreWay(g, n, q, bits, len, 1);
    RiseNone(q, rows);
    OnTheRise(g, n, q, 0);
    WaySteps(g, q);
    TurnIs(rows, q, 0);
  }

  lemma TurnsLast(bits: int, i: nat, len: int)
    ensures i < len ==> TurnsOf(bits, i, len) == TurnsOf(bits, i + 1, len) + [Digit(bits, i)]
    ensures i >= len ==> TurnsOf(bits, i, len) == []
  {
  }

  /** The cells on the way to a node that is deleted. */
  lemma {:induction false} DelCells(h: Heap, k: Skel, bits: int, len: nat, n: Ref, s: Ref, p: Ref)
    requires k.Skel? && Tied(h, k, NIL) && Apart(k) && Whole(Val(h, k)) && len > 0
    requires Follow(Val(h, k), TurnsOf(bits, 0, len)).Pol? && WalkedTo(k, bits, len, n, s, p)
    ensures var t := TurnsOf(bits, 1, len);
            && n in h && s in h && n != NIL && s != NIL && SubAt(k, t + [Digit(bits, 0)]).Skel? && SubAt(k, t).Skel?
            && n == SubAt(k, t + [Digit(bits, 0)]).ref
            && SubAt(k, t + [1 - Digit(bits, 0)]).Skel? && s == SubAt(k, t + [1 - Digit(bits, 0)]).ref
            && h[s].aunt == SubAt(k, t).ref && h[s].aunt != NIL && NodeOn(h, k, t, h[s].aunt) && NodeFor(k, t) in h
            && (len == 1 ==> NodeFor(k, t) == k.ref && h[NodeFor(k, t)].aunt == NIL
                             && Nk(k, Digit(bits, 0)).Skel? && Nk(k, 1 - Digit(bits, 0)).Skel?
                             && n == Nk(k, Digit(bits, 0)).ref && s == Nk(k, 1 - Digit(bits, 0)).ref)
            && (len > 1 ==> h[NodeFor(k, t)].aunt != NIL)
            && h[s].data == DataOf(Follow(Val(h, k), t + [1 - Digit(bits, 0)]))
  {
    hide Tied, Apart, Whole, Val, Refs, SubAt, TurnsOf, Digit, Follow, Wide, NodeFor;
    var t, d := TurnsOf(bits, 1, len), Digit(bits, 0);
    TurnsLast(bits, 0, len);
    TurnsLast(bits, 1, len);
    TurnsCount(bits, 1, len);
    DelPair(h, k, t, d);
    UpFromHere(h, k, t);
    if len == 1 {
      assert t == [];
      SubNone(k);
      NodeForRoot(k);
    }
  }

  lemma {:induction false} UpFromHere(h: Heap, k: Skel, t: seq<int>)
    requires k.Skel? && Tied(h, k, NIL) && Apart(k) && Wide(k, t)
    ensures NodeFor(k, t) in h
    ensures |t| == 0 ==> h[NodeFor(k, t)].aunt == NIL
    ensures |t| > 0 ==> h[NodeFor(k, t)].aunt != NIL
  {
    hide Tied, Apart, SubAt, Wide, NodeFor;
    assert t[..|t|] == t;
    OwnNode(h, k, t, |t|);
    UpFrom(h, k, t, |t|);
  }

  /** The deleted node and its sibling. */
  lemma {:induction false} DelPair(h: Heap, k: Skel, t: seq<int>, d: int)
    requires k.Skel? && Tied(h, k, NIL) && Apart(k) && Whole(Val(h, k)) && Follow(Val(h, k), t + [d]).Pol?
    ensures SubAt(k, t).Skel? && SubAt(k, t + [d]).Skel? && SubAt(k, t + [1 - d]).Skel? && Wide(k, t)
    ensures SubAt(k, t + [d]) == Nk(SubAt(k, t), d) && SubAt(k, t + [1 - d]) == Nk(SubAt(k, t), 1 - d)
    ensures var n, s := SubAt(k, t + [d]).ref, SubAt(k, t + [1 - d]).ref;
            && n in h && s in h && n != NIL && s != NIL && h[s].aunt == SubAt(k, t).ref && h[s].aunt != NIL
            && NodeOn(h, k, t, h[s].aunt) && h[s].data == DataOf(Follow(Val(h, k), t + [1 - d]))
  {
    hide Tied, Apart, Whole, Val, Refs, SubAt, Follow, Wide;
    TiedIn(h, k, NIL);
    SubValue(h, k, t + [d]);
    SubValue(h, k, t + [1 - d]);
    ValueThere(h, SubAt(k, t + [d]));
    WideFrom(h, k, t + [d]);
    assert (t + [d])[..|t + [d]| - 1] == t;
    WideAt(k, t, |t|);
    assert t[..|t|] == t;
    SubMore(k, t, d);
    SubMore(k, t, 1 - d);
    BelowOn(h, k, t, d);
    BelowOn(h, k, t, 1 - d);
    SubRefs(k, t + [1 - d]);
    ValueParts(h, SubAt(k, t + [1 - d]));
  }

  lemma NodeForRoot(k: Skel)
    ensures NodeFor(k, []) == RefOf(k)
  {
  }

  lemma ValueThere(h: Heap, k: Skel)
    ensures Val(h, k).Pol? ==> k.Skel?
  {
  }

  /** A niece on the way. */
  lemma {:induction false} BelowOn(h: Heap, k: Skel, t: seq<int>, d: int)
    requires k.Skel? && Tied(h, k, NIL) && Apart(k) && SubAt(k, t + [d]).Skel?
    ensures var x := SubAt(k, t + [d]).ref;
            && x in h && x != NIL && SubAt(k, t).Skel? && h[x].aunt == SubAt(k, t).ref && h[x].aunt != NIL
            && NodeOn(h, k, t, h[x].aunt)
  {
    hide Tied, Apart, SubAt;
    var u := t + [d];
    assert u[..|u| - 1] == t && u[|u| - 1] == d;
    NodeBelow(h, k, u, SubAt(k, u).ref);
  }

  /** Delete a position that is not a root: its sibling moves up, and the hashes above are made new. */
  method DeleteSingle(h: Heap, roots: seq<Ref>, nodeMap: map<Hash, Ref>, del: nat, n: nat, ghost g: Layout,
                      ghost f: Forest, ghost ks: seq<Skel>)
    returns (h': Heap, nodeMap': map<Hash, Ref>, ghost ks': seq<Skel>)
    requires Linked(h, roots, ks) && MapRight(h, ks, nodeMap) && forall d :: d in nodeMap ==> IsLeafHash(d)
    requires LayoutFor(g, TreeRows(n), n) && AllSolid(g, f) && NodesOf(g, n, f, ValsOf(h, ks))
    requires del in g.nodes && !g.IsRoot(del) && !At(g, f, del).Nil?
    ensures Linked(h', roots, ks') && NodesOf(g, n, Deleted(g, f, {del}), ValsOf(h', ks')) && h'.Keys == h.Keys
    ensures nodeMap'.Keys == nodeMap.Keys - {Merkle(At(g, f, del))} && MapRight(h', ks', nodeMap')
  {
    hide LayoutFor, Row, Layout.WellShaped, RootOf, TreeRows, Layout.IsRoot, Digit, Turn, AllSolid, NodesOf, At,
         Deleted, BiggerTrees, Merkle, DelWay, Linked, MapRight, Tied, Apart, Refs, Val, SubAt, IsLeafHash, TurnsOf,
         WalkedTo;
    SolidKnown(g, n, f, del);
    NodesCount(g, n, f, ValsOf(h, ks));
    var from := Sibling(del);
    RootRow(g, TreeRows(n), n, from);
    var _, tree, branchLen, bits := DetectOffset(from, n, g);
    RootAtIndex(g, n, from);
    WayIs(g, n, f, ValsOf(h, ks), tree, del, bits, branchLen);
    ghost var k := ks[tree];
    LinkedAt(h, roots, ks, tree);
    var fromNode, fromNodeSib, parent := WalkDown(h, roots[tree], bits, branchLen, k);
    WayParts(g, n, f, ValsOf(h, ks), tree, del, bits, branchLen);
    DelCells(h, k, bits, branchLen, fromNode, fromNodeSib, parent);
    var toSib := h[fromNodeSib].aunt;
    var toNode := GetParent(h, fromNodeSib, k, TurnsOf(bits, 1, branchLen));
    ghost var y: Skel;
    h', nodeMap', y := MoveSibling(h, nodeMap, bits, branchLen, fromNode, fromNodeSib, toNode, toSib, roots, ks, tree);
    ks' := ks[tree := y];
    ReplaceRoot(h, h', roots, ks, tree, y, {});
  }

  /** The sibling of a node moves up, into a root or further below. */
  method MoveSibling(h: Heap, nodeMap: map<Hash, Ref>, ghost bits: int, ghost len: nat, fromNode: Ref, fromNodeSib: Ref,
                     toNode: Ref, toSib: Ref, ghost roots: seq<Ref>, ghost ks: seq<Skel>, ghost i: nat)
    returns (h': Heap, nodeMap': map<Hash, Ref>, ghost y: Skel)
    requires Linked(h, roots, ks) && i < |ks| && MapRight(h, ks, nodeMap) && forall d :: d in nodeMap ==> IsLeafHash(d)
    requires var k, t, d := ks[i], TurnsOf(bits, 1, len), Digit(bits, 0);
             && len > 0 && Whole(Val(h, k)) && Val(h, k).Pol? && Follow(Val(h, k), TurnsOf(bits, 0, len)).Pol?
             && fromNode == RefOf(SubAt(k, t + [d])) && fromNodeSib == RefOf(SubAt(k, t + [1 - d]))
             && toSib == RefOf(SubAt(k, t)) && toNode == NodeFor(k, t) && fromNodeSib in h
    ensures y.Skel? && ks[i].Skel? && y.ref == ks[i].ref && Tied(h', y, NIL) && Apart(y) && Refs(y) <= Refs(ks[i])
    ensures h'.Keys == h.Keys && Beyond(h, h', Refs(ks[i])) && nodeMap'.Keys == nodeMap.Keys - {h[fromNodeSib].data}
    ensures MapRight(h', ks[i := y], nodeMap')
    ensures var e := DeleteBelow(Val(h, ks[i]), RememberOf(Val(h, ks[i])), bits, len);
            Val(h', y) == Pol(e.data, e.l, e.r, e.remember)
  {
    hide Tied, Apart, Refs, Val, SubAt, IsLeafHash, TurnsOf, Digit, Linked, MapRight, Whole, Follow, DeleteBelow,
         NodeFor, Rehash, PlugValue, MovedValue, LeavesStay;
    ghost var k, t, d := ks[i], TurnsOf(bits, 1, len), Digit(bits, 0);
    LinkedAt(h, roots, ks, i);
    TurnsLast(bits, 0, len);
    TurnsLast(bits, 1, len);
    TurnsCount(bits, 1, len);
    DelPair(h, k, t, d);
    UpFromHere(h, k, t);
    TiedIn(h, k, NIL);
    nodeMap' := nodeMap;
    if h[toNode].aunt != NIL {
      h', y := DeleteFar(h, fromNode, fromNodeSib, toNode, toSib, k, TurnsOf(bits, 2, len), Digit(bits, 1), d);
      nodeMap' := nodeMap' - {h[fromNodeSib].data};
      FarValue(h, h', k, y, bits, len);
      FarMap(h, h', roots, ks, i, y, nodeMap, nodeMap', h[fromNodeSib].data);
    } else {
      assert t == [];
      SubNone(k);
      NodeForRoot(k);
      h' := TakeRoot(h, toNode, fromNode, fromNodeSib, k, d);
      y := Skel(toNode, Nk(k, 1 - d).l, Nk(k, 1 - d).r);
      NearData(h, h', k, y, d);
      if h'[toNode].data in nodeMap' {
        nodeMap' := nodeMap'[h'[toNode].data := toNode];
      }
      nodeMap' := nodeMap' - {h[fromNodeSib].data};
      NearValue(h, h', k, y, bits);
      NearMap(h, h', roots, ks, i, y, fromNode, nodeMap, nodeMap', h[fromNodeSib].data);
    }
  }

  lemma {:induction false} NearData(h: Heap, h': Heap, k: Skel, y: Skel, d: int)
    requires k.Skel? && Nk(k, d).Skel? && Nk(k, d).ref in h && k.ref in h' && y.Skel? && y.ref == k.ref
    requires Val(h', y).Pol? && Val(h', y).data == h[Nk(k, d).ref].data
    ensures h'[k.ref].data == h[Nk(k, d).ref].data && Nk(k, d).ref in Refs(k)
  {
    assert Nk(k, d).ref in Refs(Nk(k, d));
  }

  lemma WayParts(g: Layout, n: nat, f: Forest, vals: seq<PolNode>, tree: nat, d: nat, bits: int, len: nat)
    requires DelWay(g, n, f, vals, tree, d, bits, len)
    ensures tree < |vals| && vals[tree].Pol? && Whole(vals[tree]) && len > 0
    ensures Follow(vals[tree], TurnsOf(bits, 0, len)).Pol?
    ensures DataOf(Follow(vals[tree], TurnsOf(bits, 1, len) + [1 - Digit(bits, 0)])) == Merkle(At(g, f, d))
    ensures var e := DeleteBelow(vals[tree], RememberOf(vals[tree]), bits, len);
            NodesOf(g, n, Deleted(g, f, {d}), vals[tree := Pol(e.data, e.l, e.r, e.remember)])
  {
    hide LayoutFor, AllSolid, NodesOf, At, Deleted, Merkle, DeleteBelow, Follow, TurnsOf, Digit, Whole, TreeRows;
  }

  /** What was done to the cells is the edit that deletes: far from the root, */
  lemma {:induction false} FarValue(h: Heap, h': Heap, k: Skel, y: Skel, bits: int, len: nat)
    requires len >= 2 && Tied(h, k, NIL) && Whole(Val(h, k)) && Val(h, k).Pol? &&
             Follow(Val(h, k), TurnsOf(bits, 0, len)).Pol?
    requires var w, t1, t0 := TurnsOf(bits, 2, len), Digit(bits, 1), Digit(bits, 0);
             var e := Rehash(PlugValue(Val(h, k), w, MovedValue(Val(h, SubAt(k, w)), t1, t0)), w);
             Val(h', y) == Pol(e.data, e.l, e.r, Val(h, k).remember)
    ensures var e := DeleteBelow(Val(h, k), RememberOf(Val(h, k)), bits, len);
            Val(h', y) == Pol(e.data, e.l, e.r, e.remember)
  {
    hide Tied, Whole, Val, Refs, SubAt, TurnsOf, Digit, Follow, Rehash, PlugValue, MovedValue, DeleteBelow;
    var v, turns, w := Val(h, k), TurnsOf(bits, 0, len), TurnsOf(bits, 2, len);
    TurnsLast(bits, 0, len);
    TurnsLast(bits, 1, len);
    TurnsLast(bits, 2, len);
    TurnsCount(bits, 2, len);
    assert turns == w + [Digit(bits, 1)] + [Digit(bits, 0)];
    assert turns[..len - 2] == w && turns[len - 2] == Digit(bits, 1) && turns[len - 1] == Digit(bits, 0);
    TiedIn(h, k, NIL);
    SubValue(h, k, w);
    FollowMore(v, w + [Digit(bits, 1)], Digit(bits, 0));
    FollowMore(v, w, Digit(bits, 1));
    PairedAt(v, w, Digit(bits, 1));
    DeletedByMoves(v, RememberOf(v), bits, len, turns);
  }

  lemma TurnsCount(bits: int, i: nat, len: nat)
    requires i <= len
    ensures |TurnsOf(bits, i, len)| == len - i
  {
  }

  /** Where there is one niece there are two. */
  lemma {:induction false} PairedAt(v: PolNode, w: seq<int>, turn: int)
    requires Whole(v) && Niece(Follow(v, w), turn).Pol?
    ensures Niece(Follow(v, w), 1 - turn).Pol?
  {
    hide Follow;
    WholeAt(v, w);
  }

  lemma {:induction false} WholeAt(v: PolNode, w: seq<int>)
    requires Whole(v)
    ensures Whole(Follow(v, w))
    decreases |w|
  {
    if |w| > 0 { WholeAt(v, w[..|w| - 1]); }
  }

  /** and just below it. */
  lemma {:induction false} NearValue(h: Heap, h': Heap, k: Skel, y: Skel, bits: int)
    requires k.Skel? && Refs(k) <= h.Keys && Nk(k, Digit(bits, 0)).Skel? && Nk(k, 1 - Digit(bits, 0)).Skel?
    requires var n, s := Nk(k, Digit(bits, 0)), Nk(k, 1 - Digit(bits, 0));
             n.ref in h && Val(h', y) == Pol(h[n.ref].data, Val(h, s.l), Val(h, s.r), h[n.ref].remember)
    ensures var e := DeleteBelow(Val(h, k), RememberOf(Val(h, k)), bits, 1);
            Val(h', y) == Pol(e.data, e.l, e.r, e.remember)
  {
    hide Val, Refs, Digit, DeleteBelow;
    var d := Digit(bits, 0);
    DeleteParts(Val(h, k), RememberOf(Val(h, k)), bits, 1);
    NieceValue(h, k, d);
    NieceValue(h, k, 1 - d);
    RefsParts(k);
    RefsParts(Nk(k, d));
    RefsParts(Nk(k, 1 - d));
    ValueOf(h, Nk(k, d));
    ValueOf(h, Nk(k, 1 - d));
  }

  lemma {:induction false} FarMap(h: Heap, h': Heap, roots: seq<Ref>, ks: seq<Skel>, i: nat, y: Skel,
                                  nodeMap: map<Hash, Ref>, nodeMap': map<Hash, Ref>, gone: Hash)
    requires Linked(h, roots, ks) && i < |ks| && MapRight(h, ks, nodeMap) && LeavesStay(h, h') && Refs(y) <= Refs(ks[i])
    requires Beyond(h, h', Refs(ks[i])) && nodeMap' == nodeMap - {gone} && forall d :: d in nodeMap ==> IsLeafHash(d)
    ensures MapRight(h', ks[i := y], nodeMap')
  {
    hide Tied, Apart, Refs, IsLeafHash, LeavesStay, MapRight, Linked;
    LinkedAt(h, roots, ks, i);
    TiedIn(h, ks[i], NIL);
    MapStays(h, h', roots, ks, i, y, nodeMap, nodeMap');
  }

  lemma {:induction false} NearMap(h: Heap, h': Heap, roots: seq<Ref>, ks: seq<Skel>, i: nat, y: Skel, from: Ref,
                                   nodeMap: map<Hash, Ref>, nodeMap': map<Hash, Ref>, gone: Hash)
    requires Linked(h, roots, ks) && i < |ks| && MapRight(h, ks, nodeMap) && Refs(y) <= Refs(ks[i]) && h'.Keys == h.Keys
    requires forall c :: c in h && c != ks[i].ref ==> h'[c].data == h[c].data
    requires from in Refs(ks[i]) && from !in Refs(y) && from in h && ks[i].Skel? && ks[i].ref in h'
    requires h'[ks[i].ref].data == h[from].data
    requires var d := h[from].data;
             nodeMap' == (if d in nodeMap then nodeMap[d := ks[i].ref] else nodeMap) - {gone}
    ensures MapRight(h', ks[i := y], nodeMap')
  {
    hide Tied, Apart, Refs;
    LinkedAt(h, roots, ks, i);
    RefsParts(ks[i]);
    var after := ks[i := y];
    forall j, x | 0 <= j < |ks| && x in Refs(after[j]) && x in h' && h'[x].data in nodeMap'
      ensures nodeMap'[h'[x].data] == x
    {
      assert x in Refs(ks[j]);
    }
  }

  /** Delete a whole tree: its root becomes empty. */
  method DeleteRoot(h: Heap, roots: seq<Ref>, nodeMap: map<Hash, Ref>, del: nat, n: nat, ghost g: Layout,
                    ghost f: Forest, ghost ks: seq<Skel>)
    returns (h': Heap, nodeMap': map<Hash, Ref>, ghost ks': seq<Skel>)
    requires Linked(h, roots, ks) && MapRight(h, ks, nodeMap) && forall d :: d in nodeMap ==> IsLeafHash(d)
    requires LayoutFor(g, TreeRows(n), n) && AllSolid(g, f) && NodesOf(g, n, f, ValsOf(h, ks))
    requires del in g.nodes && g.IsRoot(del)
    ensures Linked(h', roots, ks') && NodesOf(g, n, Deleted(g, f, {del}), ValsOf(h', ks')) && h'.Keys == h.Keys
    ensures nodeMap'.Keys == nodeMap.Keys - {Merkle(At(g, f, del))} && MapRight(h', ks', nodeMap')
  {
    hide LayoutFor, Row, Layout.WellShaped, RootOf, TreeRows, Layout.IsRoot, Digit, Turn, AllSolid, NodesOf, At,
         Deleted, RootList, BiggerTrees, Linked, MapRight, Tied, Apart, Refs, Val, IsLeafHash, LeavesStay, IsRootNode;
    NodesCount(g, n, f, ValsOf(h, ks));
    SolidShape(g, f);
    RootRow(g, TreeRows(n), n, del);
    var _, tree, _, _ := DetectOffset(del, n, g);
    RootAtIndex(g, n, del);
    RootOfRoot(g, del);
    NodeOfRoot(g, n, f, ValsOf(h, ks), tree);
    ghost var k := ks[tree];
    LinkedAt(h, roots, ks, tree);
    TiedIn(h, k, NIL);
    ValueParts(h, k);
    RootData(Val(h, k), At(g, f, del));
    nodeMap' := nodeMap - {h[roots[tree]].data};
    h' := DropRoot(h, roots[tree], k);
    ghost var y := Skel(roots[tree], NoSkel, NoSkel);
    RefsParts(k);
    ReplaceRoot(h, h', roots, ks, tree, y, {});
    ks' := ks[tree := y];
    RootDroppedData(h, h', k, y);
    FarMap(h, h', roots, ks, tree, y, nodeMap, nodeMap', h[roots[tree]].data);
    EmptiedNodes(g, n, f, ValsOf(h, ks), tree, del, h[roots[tree]].remember);
  }

  lemma RootData(n: PolNode, t: Tree)
    requires IsRootNode(n, t)
    ensures n.Pol? && n.data == Merkle(t)
  {
    hide Kids;
  }

  lemma {:induction false} RootDroppedData(h: Heap, h': Heap, k: Skel, y: Skel)
    requires k.Skel? && y == Skel(k.ref, NoSkel, NoSkel) && k.ref in h && h'.Keys == h.Keys && Val(h', y).Pol?
    requires Val(h', y).data == Empty && forall c :: c in h && c != k.ref ==> h'[c].data == h[c].data
    ensures LeavesStay(h, h')
  {
    NotLeafHash();
    hide IsLeafHash;
  }

  lemma NotLeafHash()
    ensures !IsLeafHash(Empty)
  {
  }

  lemma {:induction false} EmptiedNodes(g: Layout, n: nat, f: Forest, vals: seq<PolNode>, tree: nat, d: nat,
                                        remember: bool)
    requires LayoutFor(g, TreeRows(n), n) && AllSolid(g, f) && NodesOf(g, n, f, vals) && d in g.nodes && g.IsRoot(d)
    requires tree < |vals| && tree < |RootList(n, TreeRows(n), 0)| && RootList(n, TreeRows(n), 0)[tree] == d
    ensures NodesOf(g, n, Deleted(g, f, {d}), vals[tree := Pol(Empty, NoNode, NoNode, remember)])
  {
    hide LayoutFor, Layout.WellShaped, TreeRows, Layout.IsRoot, AllSolid, NodesOf, At, Deleted, RootList, RootOf;
    SolidShape(g, f);
    RootOfRoot(g, d);
    OneTree(g, n, f, d, d);
    OtherTrees(g, n, f, d);
    NodesReplaced(g, n, f, Deleted(g, f, {d}), vals, tree, Pol(Empty, NoNode, NoNode, remember));
  }

  /** Remove leaves: sort, merge twins, and delete one position after another. */
  method RemoveLeaves(h0: Heap, roots: seq<Ref>, nodeMap0: map<Hash, Ref>, dels: seq<nat>, n: nat, ghost ks0: seq<Skel>,
                      ghost g: Layout, ghost slots: seq<Hash>, ghost hashes: set<Hash>)
    returns (h: Heap, nodeMap: map<Hash, Ref>, ghost ks: seq<Skel>)
    requires n == |slots| && Linked(h0, roots, ks0) && Grove(ValsOf(h0, ks0), RootTrees(slots, 0))
    requires Deletes(g, slots, dels, hashes) && GoodSlots(slots)
    requires nodeMap0.Keys == LeafKeys(Erase(slots, hashes)) && MapRight(h0, ks0, nodeMap0)
    ensures Linked(h, roots, ks) && Grove(ValsOf(h, ks), RootTrees(Erase(slots, hashes), 0)) && h.Keys == h0.Keys
    ensures nodeMap.Keys == nodeMap0.Keys && MapRight(h, ks, nodeMap)
  {
    hide LayoutFor, Deletes, NodesOf, ForestOf, AllSolid, Deleted, Deletable, Compact, ValidTargets, SortPositions,
         Separate, Maximal, RootTrees, Erase, Layout.WellShaped, DeletedInTurn, TreeRows, At, Grove, GoodSlots,
         LeafKeys, Layout.IsRoot, Merkle, Linked, MapRight, IsLeafHash;
    ghost var f := ForestOf(g, slots);
    DeletesFacts(g, slots, dels, hashes);
    NodesOfSlots(g, slots, ValsOf(h0, ks0));
    SortPositionsFacts(dels);
    KeysAreLeaves(slots, hashes);
    var ds := DeTwin.DeTwin(SortPositions(dels), TreeRows(n), g);
    assert Largest(g, Elems(dels), ds);
    SeparateNodes(g, ds);
    h, nodeMap, ks := h0, nodeMap0, ks0;
    InTurnNone(g, f);
    assert ds[..0] == [];
    for i := 0 to |ds|
      invariant Linked(h, roots, ks) && NodesOf(g, n, DeletedInTurn(g, f, ds[..i]), ValsOf(h, ks)) && h.Keys == h0.Keys
      invariant nodeMap.Keys == nodeMap0.Keys && MapRight(h, ks, nodeMap)
    {
      ghost var now := DeletedInTurn(g, f, ds[..i]);
      InTurnSolid(g, f, ds, i);
      InTurnLast(g, f, ds, i);
      GoneHash(g, slots, dels, hashes, ds, i);
      RootKeys(g, f);
      StillThere(g, f, ds, i, i);
      RootTestIff(g, n, ds[i]);
      if IsRootPositionOnRow(ds[i], n, Row(TreeRows(n), ds[i])) {
        h, nodeMap, ks := DeleteRoot(h, roots, nodeMap, ds[i], n, g, now, ks);
      } else {
        h, nodeMap, ks := DeleteSingle(h, roots, nodeMap, ds[i], n, g, now, ks);
      }
    }
    assert ds[..|ds|] == ds;
    LargestInTurn(g, f, Elems(dels), ds);
    EraseCount(slots, hashes);
    NodesOfSlots(g, Erase(slots, hashes), ValsOf(h, ks));
  }
}
