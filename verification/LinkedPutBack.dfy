/** Putting one deleted node back by its pointers. */
module LinkedPutBack {
  import opened Hashes
  import opened Options
  import opened Positions
  import opened Geometry
  import opened Layouts
  import opened Forests
  import opened Deletion
  import opened Slots
  import opened TreeIndex
  import opened OneDeletion
  import opened Pollards
  import opened Nieces
  import opened NieceEdits
  import opened NieceNavigation
  import opened NiecePollard
  import opened PollardUndo
  import MapForest
  import opened Cells
  import opened CellPaths
  import opened CellHashes
  import opened CellEdits
  import opened CellInserts
  import opened CellValues
  import opened Links
  import opened LinkedDelete
  import opened LinkedAdd

  /** A node to be put back beside the one that some turns lead to. */
  ghost predicate PutFar(h: Heap, k: Skel, w: seq<int>, t: int, m: Skel, p: Ref) {
    TwoTrees(h, k, m, p) && Whole(Val(h, k)) && SubAt(k, w + [t]).Skel?
  }

  lemma {:induction false} BackPieces(h: Heap, k: Skel, w: seq<int>, t: int, m: Skel, p: Ref)
    requires PutFar(h, k, w, t, m, p)
    ensures var x := SubAt(k, w);
            && Undoing(h, x, AuntAt(k, NIL, w), t, m, p) && Wide(k, w) && Refs(x) <= Refs(k)
            && SubAt(k, w + [t]) == Nk(x, t) && SubAt(k, w + [1 - t]) == Nk(x, 1 - t)
  {
    hide SubAt, Tied, Apart, Val, Whole, Wide, Refs;
    TiedIn(h, k, NIL);
    WideFrom(h, k, w + [t]);
    assert (w + [t])[..|w + [t]| - 1] == w;
    WideAt(k, w, |w|);
    assert w[..|w|] == w;
    SubMore(k, w, t);
    SubMore(k, w, 1 - t);
    SubTied(h, k, NIL, w);
    SubRefs(k, w);
  }

  /** The value of what hangs there then. */
  lemma {:induction false} PutNode(h: Heap, h1: Heap, x: Skel, t: int, m: Skel, p: Ref, side: int, data: Hash,
                                   full: bool)
    requires x.Skel? && Nk(x, t).Skel? && Nk(x, 1 - t).Skel? && m.Skel? && Refs(x) <= h.Keys && Refs(m) <= h.Keys
    requires 0 <= side < 2
    requires var y := PutBeside(x, t, m, p, side);
             && x.ref in h && x.ref in h1 && h1[x.ref].remember == h[x.ref].remember && h1[x.ref].data == h[x.ref].data
             && Val(h1, Nk(y, t)) == Pol(data, Val(h, Nk(x, t).l), Val(h, Nk(x, t).r), full)
             && Val(h1, Nk(y, 1 - t)).Pol? && DataOf(Val(h1, Nk(y, 1 - t))) == DataOf(Val(h, Nk(x, 1 - t)))
             && RememberOf(Val(h1, Nk(y, 1 - t))) == RememberOf(Val(h, Nk(x, 1 - t)))
             && Niece(Val(h1, Nk(y, 1 - t)), side) == WithNieces(Val(h, m), Val(h, Nk(x, 1 - t).l),
                                                                 Val(h, Nk(x, 1 - t).r))
             && Niece(Val(h1, Nk(y, 1 - t)), 1 - side) == WithNieces(Val(h, Nk(x, t)), Val(h, m.l), Val(h, m.r))
    ensures Val(h1, PutBeside(x, t, m, p, side)) == PutValue(Val(h, x), t, Val(h, m), side, data, full)
  {
    hide Refs, Val;
    var y := PutBeside(x, t, m, p, side);
    var n, s := Nk(x, t), Nk(x, 1 - t);
    RefsParts(x);
    RefsParts(n);
    RefsParts(s);
    PairParts(x.ref, t, Nk(y, t), Nk(y, 1 - t));
    ValueParts(h, x);
    ValueParts(h, n);
    ValueParts(h, s);
    ValueParts(h, m);
    ValueOf(h1, y);
  }

  /** What was put back, as a part of the whole. */
  lemma {:induction false} PartPut(h: Heap, h1: Heap, k: Skel, w: seq<int>, t: int, m: Skel, p: Ref, side: int)
    requires PutFar(h, k, w, t, m, p) && Undoing(h, SubAt(k, w), AuntAt(k, NIL, w), t, m, p) && Wide(k, w)
    requires Refs(SubAt(k, w)) <= Refs(k)
    requires var x := SubAt(k, w);
             var y := PutBeside(x, t, m, p, side);
             && Tied(h1, y, AuntAt(k, NIL, w)) && Apart(y) && Refs(y) == Refs(x) + Refs(m) + {p}
             && h1.Keys == h.Keys + {p} && Beyond(h, h1, Refs(x) + Refs(m))
    ensures var x := SubAt(k, w);
            var y := PutBeside(x, t, m, p, side);
            var k' := Plug(k, w, y);
            && k'.Skel? && k'.ref == k.ref && Tied(h1, k', NIL) && Apart(k') && Wide(k', w + [1 - t])
            && Refs(k') <= Refs(k) + Refs(m) + {p} && Beyond(h, h1, Refs(k) + Refs(m))
            && NodeFor(k', w + [1 - t]) == p && Val(h1, k') == PlugValue(Val(h, k), w, Val(h1, y))
  {
    hide Tied, Apart, Refs, Val, Whole, Wide, SubAt, PlugValue, Plug;
    var x := SubAt(k, w);
    var y := PutBeside(x, t, m, p, side);
    TiedIn(h, k, NIL);
    Plugged(h, h1, k, NIL, w, y, Refs(m));
    PairParts(x.ref, t, Nk(y, t), Nk(y, 1 - t));
    WideMore(k, w, y, 1 - t);
    assert (w + [1 - t])[..|w|] == w;
  }

  /** A part with two rows of nieces. */
  lemma {:induction false} WideMore(k: Skel, w: seq<int>, y: Skel, t: int)
    requires Wide(k, w) && y.Skel? && y.l.Skel? && y.r.Skel? && Nk(y, t).Skel? && Nk(y, t).l.Skel? && Nk(y, t).r.Skel?
    ensures Wide(Plug(k, w, y), w + [t])
    decreases |w|
  {
    if |w| > 0 {
      WideMore(Nk(k, w[0]), w[1..], y, t);
      assert (w + [t])[1..] == w[1..] + [t];
    } else {
      assert (w + [t])[1..] == [];
    }
  }

  /** Hashes of leaves are where they were. */
  ghost predicate NoNewLeaf(h: Heap, h': Heap) {
    forall c :: c in h' && IsLeafHash(h'[c].data) ==> c in h && h[c].data == h'[c].data
  }

  lemma {:induction false} PutHashed(h: Heap, h1: Heap, h2: Heap, k: Skel, m: Skel, k': Skel, turns: seq<int>, p: Ref)
    requires k'.Skel? && Tied(h1, k', NIL) && Apart(k') && Wide(k', turns) && Refs(k') <= Refs(k) + Refs(m) + {p}
    requires h1.Keys == h.Keys + {p} && p !in h && !IsLeafHash(h1[p].data)
    requires Beyond(h, h1, Refs(k) + Refs(m)) && forall c :: c in h ==> h1[c].data == h[c].data
    requires h2 == HashFrom(h1, k', RefOf(k'), turns)
    ensures Tied(h2, k', NIL) && h2.Keys == h.Keys + {p} && Beyond(h, h2, Refs(k) + Refs(m)) && NoNewLeaf(h, h2)
    ensures var e := Rehash(Val(h1, k'), turns);
            Val(h1, k').Pol? && Val(h2, k') == Pol(e.data, e.l, e.r, Val(h1, k').remember)
  {
    hide Tied, Apart, Refs, Val, Wide, HashFrom, Rehash, IsLeafHash;
    RootHashed(h1, k', turns);
    forall c | c in h1
      ensures c in h2 && (h2[c].data == h1[c].data || !IsLeafHash(h2[c].data))
    {
      NewHashes(h1, k', RefOf(k'), turns, c);
    }
  }

  /** Put a node back beside a node that is below a root. */
  method PutFarBack(h: Heap, sibling: Ref, aunt: Ref, node: Ref, p: Ref, right: bool, ghost k: Skel, ghost w: seq<int>,
                    ghost t: int, ghost m: Skel)
    returns (h': Heap, ghost k': Skel)
    requires PutFar(h, k, w, t, m, p) && sibling == RefOf(SubAt(k, w + [t])) && aunt == RefOf(SubAt(k, w + [1 - t]))
    requires node == m.ref && node in h && sibling in h
    ensures k'.Skel? && k'.ref == k.ref && Tied(h', k', NIL) && Apart(k') && Refs(k') <= Refs(k) + Refs(m) + {p}
    ensures h'.Keys == h.Keys + {p} && Beyond(h, h', Refs(k) + Refs(m)) && NoNewLeaf(h, h')
    ensures var e := Rehash(PlugValue(Val(h, k), w, PutValue(Val(h, SubAt(k, w)), t, Val(h, m), if right then 1 else 0,
                                                             SiblingsHash(h, node, sibling, right), true)),
                                                                 w + [1 - t]);
            Val(h, k).Pol? && Val(h', k') == Pol(e.data, e.l, e.r, Val(h, k).remember)
  {
    hide Tied, Apart, Refs, Val, Whole, Wide, SubAt, Rehash, PlugValue, Plug, NodeFor, NoNewLeaf, HashFrom, OnlyData,
         PutValue, IsLeafHash;
    ghost var x, side := SubAt(k, w), if right then 1 else 0;
    BackPieces(h, k, w, t, m, p);
    var pHash := SiblingsHash(h, node, sibling, right);
    h' := MoveDown(h, sibling, aunt, node, p, right, pHash, true, x, AuntAt(k, NIL, w), t, m);
    ghost var h1 := h';
    ghost var y := PutBeside(x, t, m, p, side);
    k' := Plug(k, w, y);
    PartPut(h, h1, k, w, t, m, p, side);
    TiedIn(h, k, NIL);
    TiedIn(h, m, NIL);
    PutNode(h, h1, x, t, m, p, side, pHash, true);
    h' := HashToRoot(h', p, k', w + [1 - t]);
    SiblingsNotLeaf(h, node, sibling, right);
    PutHashed(h, h1, h', k, m, k', w + [1 - t], p);
    BackFlag(h, k, w, t, Val(h, m), side, pHash);
  }

  /** The hash of the parent of a node and its sibling. */
  function SiblingsHash(h: Heap, node: Ref, sibling: Ref, right: bool): Hash
    requires node in h && sibling in h
  {
    if right then ParentHash(h[sibling].data, h[node].data) else ParentHash(h[node].data, h[sibling].data)
  }

  lemma SiblingsNotLeaf(h: Heap, node: Ref, sibling: Ref, right: bool)
    requires node in h && sibling in h
    ensures !IsLeafHash(SiblingsHash(h, node, sibling, right))
  {
    hide IsLeafHash;
    InnerNotLeaf(h[sibling].data, h[node].data);
    InnerNotLeaf(h[node].data, h[sibling].data);
  }

  lemma {:induction false} BackFlag(h: Heap, k: Skel, w: seq<int>, t: int, node: PolNode, side: int, data: Hash)
    requires k.Skel? && Tied(h, k, NIL) && SubAt(k, w).Skel?
    ensures Val(h, k).Pol?
    ensures var p := PlugValue(Val(h, k), w, PutValue(Val(h, SubAt(k, w)), t, node, side, data, true));
            p.Pol? && p.remember == Val(h, k).remember
  {
    hide Tied, Refs, Val, PlugValue;
    TiedIn(h, k, NIL);
    SubRefs(k, w);
    ValueParts(h, k);
    ValueParts(h, SubAt(k, w));
    PluggedFlag(h, k, w, PutValue(Val(h, SubAt(k, w)), t, node, side, data, true));
    if |w| == 0 { assert w == []; SubNone(k); }
  }

  /** What the map leads to after a root may have moved into a new cell. */
  ghost predicate MapKept(h: Heap, h': Heap, root: Ref, nodeMap: map<Hash, Ref>, nodeMap': map<Hash, Ref>)
    requires root in h
  {
    && nodeMap'.Keys == nodeMap.Keys
    && forall c :: c in h' && h'[c].data in nodeMap' ==>
         var d := h'[c].data;
         || nodeMap'[d] == c
         || (c in h && h[c].data == d && (nodeMap'[d] == nodeMap[d] || (c != root && d == h[root].data)))
  }

  lemma MapKeptFar(h: Heap, h': Heap, root: Ref, nodeMap: map<Hash, Ref>)
    requires root in h && NoNewLeaf(h, h') && forall d :: d in nodeMap ==> IsLeafHash(d)
    ensures MapKept(h, h', root, nodeMap, nodeMap)
  {
    hide IsLeafHash;
  }

  lemma MapKeptNear(h: Heap, h': Heap, root: Ref, p: Ref, nodeMap: map<Hash, Ref>)
    requires root in h && p !in h && h'.Keys == h.Keys + {p} && !IsLeafHash(h'[root].data)
    requires (forall c :: c in h && c != root ==> h'[c].data == h[c].data) && h'[p].data == h[root].data
    requires forall d :: d in nodeMap ==> IsLeafHash(d)
    ensures var d := h[root].data; MapKept(h, h', root, nodeMap, if d in nodeMap then nodeMap[d := p] else nodeMap)
  {
    hide IsLeafHash;
  }

  /** The edit, which puts a node beside a root or further below. */
  function BackEdit(root: PolNode, bits: int, len: nat, node: PolNode, right: bool): Edited {
    if len == 0 then SideBySide(node, root, root, right, true)
    else InsertBelow(root, RememberOf(root), bits, len, node, right, true)
  }

  /** Put a node back: beside the root, which moves into a new cell, or beside a node below it. */
  method PlaceBeside(h: Heap, next: Ref, nodeMap: map<Hash, Ref>, node: Ref, sibling: Ref, aunt: Ref, right: bool,
                     ghost bits: int, ghost len: nat, ghost k: Skel, ghost m: Skel)
    returns (h': Heap, nodeMap': map<Hash, Ref>, ghost y: Skel)
    requires TwoTrees(h, k, m, next) && Whole(Val(h, k)) && forall d :: d in nodeMap ==> IsLeafHash(d)
    requires Follow(Val(h, k), TurnsOf(bits, 0, len)).Pol? && node == m.ref
    requires sibling == RefOf(SubAt(k, TurnsOf(bits, 0, len)))
    requires len > 0 ==> aunt == RefOf(SubAt(k, TurnsOf(bits, 1, len) + [1 - Digit(bits, 0)]))
    ensures y.Skel? && y.ref == k.ref && Tied(h', y, NIL) && Apart(y) && Refs(y) <= Refs(k) + Refs(m) + {next}
    ensures h'.Keys == h.Keys + {next} && Beyond(h, h', Refs(k) + Refs(m))
    ensures k.ref in h && MapKept(h, h', k.ref, nodeMap, nodeMap')
    ensures var e := BackEdit(Val(h, k), bits, len, Val(h, m), right); Val(h', y) == Pol(e.data, e.l, e.r, e.remember)
  {
    hide Tied, Apart, Refs, Val, SubAt, IsLeafHash, TurnsOf, Digit, Whole, Follow, BackEdit, NoNewLeaf, MapKept, Rehash,
         PlugValue, PutValue, SiblingsHash;
    ghost var turns, d := TurnsOf(bits, 0, len), Digit(bits, 0);
    BackCells(h, k, m, next, bits, len);
    nodeMap' := nodeMap;
    if h[sibling].aunt != NIL {
      ghost var w := TurnsOf(bits, 1, len);
      h', y := PutFarBack(h, sibling, aunt, node, next, right, k, w, d, m);
      MapKeptFar(h, h', k.ref, nodeMap);
      FarEdit(h, k, bits, len, Val(h, m), right, SiblingsHash(h, node, sibling, right));
    } else {
      var pHash := SiblingsHash(h, node, sibling, right);
      h' := PutBesideRoot(h, sibling, node, next, right, pHash, true, k, m);
      y := Crossed(sibling, if right then 1 else 0, m, Skel(next, k.l, k.r));
      NearEdit(h, h', k, m, y, next, right, bits);
      SiblingsNotLeaf(h, node, sibling, right);
      MapKeptNear(h, h', k.ref, next, nodeMap);
      if h'[next].data in nodeMap' {
        nodeMap' := nodeMap'[h'[next].data := next];
      }
    }
  }

  lemma {:induction false} BackCells(h: Heap, k: Skel, m: Skel, p: Ref, bits: int, len: nat)
    requires TwoTrees(h, k, m, p) && Whole(Val(h, k)) && Follow(Val(h, k), TurnsOf(bits, 0, len)).Pol?
    ensures var s := SubAt(k, TurnsOf(bits, 0, len));
            && s.Skel? && s.ref in h && m.ref in h && k.ref in h && (h[s.ref].aunt == NIL <==> len == 0)
            && (len == 0 ==> s == k) && Refs(k) <= h.Keys && Refs(m) <= h.Keys
            && (len > 0 ==> TurnsOf(bits, 0, len) == TurnsOf(bits, 1, len) + [Digit(bits, 0)]
                            && PutFar(h, k, TurnsOf(bits, 1, len), Digit(bits, 0), m, p))
  {
    hide Tied, Apart, Refs, Val, SubAt, TurnsOf, Digit, Whole, Follow;
    var turns := TurnsOf(bits, 0, len);
    TiedIn(h, k, NIL);
    TiedIn(h, m, NIL);
    RefsParts(k);
    RefsParts(m);
    SubValue(h, k, turns);
    ValueThere(h, SubAt(k, turns));
    TurnsLast(bits, 0, len);
    if len == 0 {
      SubNone(k);
      TiedParts(h, k, NIL);
    } else {
      BelowOn(h, k, TurnsOf(bits, 1, len), Digit(bits, 0));
    }
  }

  lemma {:induction false} FarEdit(h: Heap, k: Skel, bits: int, len: nat, node: PolNode, right: bool, data: Hash)
    requires len > 0 && k.Skel? && Tied(h, k, NIL) && Whole(Val(h, k)) && Follow(Val(h, k), TurnsOf(bits, 0, len)).Pol?
    ensures var w, t := TurnsOf(bits, 1, len), Digit(bits, 0);
            var e := Rehash(PlugValue(Val(h, k), w, PutValue(Val(h, SubAt(k, w)), t, node, if right then 1 else 0, data,
                                                             true)), w + [1 - t]);
            BackEdit(Val(h, k), bits, len, node, right) == Edited(e.l, e.r, e.data, RememberOf(Val(h, k)))
  {
    hide Tied, Refs, Val, SubAt, TurnsOf, Digit, Whole, Follow, Rehash, PlugValue, PutValue, InsertBelow;
    var v, turns, w, t := Val(h, k), TurnsOf(bits, 0, len), TurnsOf(bits, 1, len), Digit(bits, 0);
    TurnsLast(bits, 0, len);
    TurnsCount(bits, 1, len);
    assert turns[..len - 1] == w && turns[len - 1] == t;
    TiedIn(h, k, NIL);
    SubValue(h, k, w);
    FollowMore(v, w, t);
    PairedAt(v, w, t);
    InsertedByMoves(v, RememberOf(v), bits, len, turns, node, right, data, true);
  }

  lemma {:induction false} NearEdit(h: Heap, h': Heap, k: Skel, m: Skel, y: Skel, p: Ref, right: bool, bits: int)
    requires k.Skel? && m.Skel? && Refs(k) <= h.Keys && Refs(m) <= h.Keys && k.ref in h && m.ref in h
    requires var t := if right then 1 else 0;
             && Val(h', y).Pol? && Val(h', y).data == SiblingsHash(h, m.ref, k.ref, right) &&
                Val(h', y).remember == true
             && Niece(Val(h', y), t) == WithNieces(Val(h, m), Val(h, k.l), Val(h, k.r))
             && Niece(Val(h', y), 1 - t) == WithNieces(Val(h, k), Val(h, m.l), Val(h, m.r))
    ensures y.Skel? && y.ref in h' ==> h'[y.ref].data == SiblingsHash(h, m.ref, k.ref, right)
    ensures var e := BackEdit(Val(h, k), bits, 0, Val(h, m), right); Val(h', y) == Pol(e.data, e.l, e.r, e.remember)
  {
    hide Val, Refs;
    ValueParts(h, k);
    ValueParts(h, m);
    if y.Skel? && y.ref in h' { ValueOf(h', y); }
  }

  /** What is known of a position to be put back, and of the way to where its sibling is. */
  ghost predicate BackWay(g: Layout, n: nat, f: Forest, vals: seq<PolNode>, tree: nat, node: PolNode, right: bool,
                          bits: int, len: nat)
  {
    && tree < |vals| && Whole(vals[tree]) && Follow(vals[tree], TurnsOf(bits, 0, len)).Pol?
    && var e := BackEdit(vals[tree], bits, len, node, right);
    NodesOf(g, n, f, vals[tree := Pol(e.data, e.l, e.r, e.remember)])
  }

  lemma {:induction false} BackIs(g: Layout, n: nat, f: Forest, vals: seq<PolNode>, tree: nat, d: nat, node: PolNode,
                                  bits: int, len: nat)
    requires LayoutFor(g, TreeRows(n), n) && AllSolid(g, f) && NodesOf(g, n, Deleted(g, f, {d}), vals)
    requires d in g.nodes && !g.IsRoot(d) && !At(g, f, d).Nil? && IsRootNode(node, At(g, f, d)) && tree < |vals|
    requires var u := g.Up(d);
             && u in g.nodes && Valid(TreeRows(n), u) && Valid(TreeRows(n), RootOf(g, u))
             && tree == BiggerTrees(n, Row(TreeRows(n), RootOf(g, u)), TreeRows(n))
             && len + Row(TreeRows(n), u) == Row(TreeRows(n), RootOf(g, u))
             && (forall j: nat :: j < len ==> Digit(bits, j) == Turn(TreeRows(n), u, j))
    ensures BackWay(g, n, f, vals, tree, node, d % 2 == 1, bits, len)
  {
    hide LayoutFor, Row, Layout.WellShaped, RootOf, TreeRows, Layout.IsRoot, Digit, Turn, AllSolid, NodesOf, At,
         Deleted, RootList, BiggerTrees, Follow, WayTo, WayBeside, ForestOk, IsRootNode, Whole, TurnsOf, SideBySide,
         InsertBelow, Present;
    var u, f' := g.Up(d), Deleted(g, f, {d});
    LayoutFits(g, TreeRows(n), n);
    SolidAfter(g, f, d);
    SolidShape(g, f');
    RootAtIndex(g, n, u);
    RootOfUp(g, d);
    NodeOfRoot(g, n, f', vals, tree);
    RootWhole(vals[tree], At(g, f', RootOf(g, u)));
    UndoneNodes(g, n, f, vals, tree, d, node, bits, len);
    TurnsAreWay(g, n, u, bits, len, 0);
    RiseNone(u, TreeRows(n));
    Found(g, f', vals[tree], u);
    MapForest.AtParent(g, f, d);
    ThereAtAll(g, f', u);
  }

  lemma ThereAtAll(g: Layout, f: Forest, u: nat)
    requires g.WellShaped() && u in g.nodes && !At(g, f, u).Nil?
    ensures Present(g, f, u)
  {
    hide Layout.WellShaped;
    if !g.IsRoot(u) { g.NonRootFacts(u); }
  }

  /** A tree that hangs from nowhere, with cells of its own. */
  ghost predicate Aside(h: Heap, ks: seq<Skel>, m: Skel) {
    m.Skel? && Tied(h, m, NIL) && Apart(m) && forall i :: 0 <= i < |ks| ==> Refs(ks[i]) !! Refs(m)
  }

  /** Undo one deletion of a position that is not a root: the node that moved up moves down again, beside the node put
      back, and the hashes above are made new. */
  method UndoSingleDel(h: Heap, next: Ref, roots: seq<Ref>, nodeMap: map<Hash, Ref>, node: Ref, pos: nat, n: nat,
                       ghost g: Layout, ghost f: Forest, ghost ks: seq<Skel>, ghost m: Skel)
    returns (h': Heap, nodeMap': map<Hash, Ref>, ghost tree: nat, ghost y: Skel)
    requires Room(h, next) && Linked(h, roots, ks) && Aside(h, ks, m) && node == m.ref
    requires forall d :: d in nodeMap ==> IsLeafHash(d)
    requires LayoutFor(g, TreeRows(n), n) && AllSolid(g, f) && pos in g.nodes && !g.IsRoot(pos)
    requires NodesOf(g, n, Deleted(g, f, {pos}), ValsOf(h, ks))
    requires IsRootNode(Val(h, m), At(g, f, pos)) && !At(g, f, pos).Nil?
    ensures tree < |ks| && Linked(h', roots, ks[tree := y]) && NodesOf(g, n, f, ValsOf(h', ks[tree := y]))
    ensures h'.Keys == h.Keys + {next} && Beyond(h, h', Refs(ks[tree]) + Refs(m))
    ensures Refs(y) <= Refs(ks[tree]) + Refs(m) + {next}
    ensures RefOf(ks[tree]) in h && RefOf(ks[tree]) in Refs(ks[tree])
    ensures MapKept(h, h', RefOf(ks[tree]), nodeMap, nodeMap')
  {
    hide LayoutFor, Row, Layout.WellShaped, RootOf, TreeRows, Layout.IsRoot, Digit, Turn, AllSolid, NodesOf, At,
         Deleted, BiggerTrees, Linked, MapKept, Tied, Apart, Refs, Val, SubAt, IsLeafHash, TurnsOf, IsRootNode, Follow,
         Whole, BackEdit, BackWay, RootList;
    NodesCount(g, n, Deleted(g, f, {pos}), ValsOf(h, ks));
    LayoutFits(g, TreeRows(n), n);
    g.NonRootFacts(pos);
    var siblingPos := Parent(TreeRows(n), pos);
    var _, t, branchLen, bits := DetectOffset(siblingPos, n, g);
    RootAtIndex(g, n, siblingPos);
    tree := t;
    ghost var k := ks[tree];
    BackIs(g, n, f, ValsOf(h, ks), tree, pos, Val(h, m), bits, branchLen);
    BackParts(g, n, f, ValsOf(h, ks), tree, Val(h, m), pos % 2 == 1, bits, branchLen);
    LinkedAt(h, roots, ks, tree);
    var sibling, aunt, _ := WalkDown(h, roots[t], bits, branchLen, k);
    Walked(h, k, bits, branchLen, sibling, aunt);
    h', nodeMap', y := PlaceBeside(h, next, nodeMap, node, sibling, aunt, pos % 2 == 1, bits, branchLen, k, m);
    NotInUse(h, next, roots, ks);
    assert Beyond(h, h', Refs(k) + (Refs(m) + {next}));
    ReplaceRoot(h, h', roots, ks, tree, y, Refs(m) + {next});
    RefsParts(k);
  }

  lemma BackParts(g: Layout, n: nat, f: Forest, vals: seq<PolNode>, tree: nat, node: PolNode, right: bool, bits: int,
                  len: nat)
    requires BackWay(g, n, f, vals, tree, node, right, bits, len)
    ensures tree < |vals| && Whole(vals[tree]) && Follow(vals[tree], TurnsOf(bits, 0, len)).Pol?
    ensures var e := BackEdit(vals[tree], bits, len, node, right);
            NodesOf(g, n, f, vals[tree := Pol(e.data, e.l, e.r, e.remember)])
  {
    hide NodesOf, Whole, Follow, TurnsOf, BackEdit;
  }

  lemma {:induction false} Walked(h: Heap, k: Skel, bits: int, len: nat, sibling: Ref, aunt: Ref)
    requires k.Skel? && Tied(h, k, NIL) && Apart(k) && Follow(Val(h, k), TurnsOf(bits, 0, len)).Pol?
    requires exists parent :: WalkedTo(k, bits, len, sibling, aunt, parent)
    ensures sibling == RefOf(SubAt(k, TurnsOf(bits, 0, len)))
    ensures len > 0 ==> aunt == RefOf(SubAt(k, TurnsOf(bits, 1, len) + [1 - Digit(bits, 0)]))
  {
    hide Tied, Apart, Refs, Val, SubAt, TurnsOf, Digit, Follow;
    TiedIn(h, k, NIL);
    SubValue(h, k, TurnsOf(bits, 0, len));
    ValueThere(h, SubAt(k, TurnsOf(bits, 0, len)));
    SubRefs(k, TurnsOf(bits, 0, len));
    ApartParts(SubAt(k, TurnsOf(bits, 0, len)));
  }

  lemma {:induction false} NotInUse(h: Heap, next: Ref, roots: seq<Ref>, ks: seq<Skel>)
    requires Room(h, next) && Linked(h, roots, ks)
    ensures forall j :: 0 <= j < |ks| ==> next !in Refs(ks[j])
  {
    hide Linked, Refs;
    forall j | 0 <= j < |ks|
      ensures next !in Refs(ks[j])
    {
      LinkedIn(h, roots, ks, j);
    }
  }
}
