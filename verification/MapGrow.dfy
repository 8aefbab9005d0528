/** A cache and the carry of one more leaf. */
module MapGrow {
  import opened Hashes
  import opened Positions
  import opened Geometry
  import opened Layouts
  import opened Forests
  import opened Sequential
  import opened Slots
  import opened Additions
  import opened Growth
  import opened Pollards
  import opened MapTheory
  import opened MapLift
  import opened MapForest
  import opened MapFuse

  lemma {:induction false} SameSees(o: Layout, g: Layout, trees: Forest, p: nat)
    requires o.m == g.m
    ensures Sees(o, trees, p) == Sees(g, trees, p) && (Inside(o, trees, p) <==> Inside(g, trees, p))
    decreases 2 * g.m - p
  {
    if p !in trees && p < 2 * g.m - 1 { SameSees(o, g, trees, g.Up(p)); }
  }

  lemma {:induction false} SameFits(o: Layout, g: Layout, p: nat, t: Tree)
    requires o.m == g.m
    ensures FitsBelow(o, p, t) <==> FitsBelow(g, p, t)
    decreases t
  {
    if t.Node? && p >= g.m {
      SameFits(o, g, g.Left(p), t.left);
      SameFits(o, g, g.Right(p), t.right);
    }
  }

  /** What a cache must keep depends on the room there is, not on the leaves. */
  lemma {:induction false} SameKeeps(o: Layout, g: Layout, trees: Forest, nodes: map<nat, Cached>)
    requires o.m == g.m && Keeps(o, trees, nodes)
    ensures Keeps(g, trees, nodes)
  {
    hide Above, Inside, Sees, FitsBelow;
    forall p: nat
      ensures Sees(o, trees, p) == Sees(g, trees, p) && (Inside(o, trees, p) <==> Inside(g, trees, p))
    {
      SameSees(o, g, trees, p);
    }
    forall a: nat, p: nat
      ensures Above(o, a, p) <==> Above(g, a, p)
    {
      SameAbove(o, g, a, p);
    }
    forall t | t in trees
      ensures Fits(g, t, trees[t])
    {
      SameFits(o, g, t, trees[t]);
    }
    SameTrue(o, g, trees, nodes);
    SameProvable(o, g, trees, nodes);
  }

  lemma SameTrue(o: Layout, g: Layout, trees: Forest, nodes: map<nat, Cached>)
    requires TrueNodes(o, trees, nodes)
    requires forall p: nat :: Sees(o, trees, p) == Sees(g, trees, p) && (Inside(o, trees, p) <==> Inside(g, trees, p))
    ensures TrueNodes(g, trees, nodes)
  {
    hide Inside, Sees, Merkle;
  }

  lemma SameProvable(o: Layout, g: Layout, trees: Forest, nodes: map<nat, Cached>)
    requires o.m == g.m && Provable(o, trees, nodes) && Aunts(o, trees, nodes)
    requires forall p: nat :: Inside(o, trees, p) <==> Inside(g, trees, p)
    requires forall a: nat, p: nat :: Above(o, a, p) <==> Above(g, a, p)
    ensures Provable(g, trees, nodes) && Aunts(g, trees, nodes)
  {
    hide Inside, Above;
    forall y: nat, c | c in Remembered(nodes) && AtOrAbove(g, y, c) && Inside(g, trees, y) && y !in trees
      ensures Sibling(y) in nodes
    {
      ProvableAt(o, trees, nodes, y, c);
    }
    forall c | c in nodes && c !in trees && g.Up(c) !in trees
      ensures Sibling(g.Up(c)) in nodes
    {
      AuntAt(o, trees, nodes, c);
    }
  }

  /** A new leaf beside the forest. */
  lemma {:induction false} LeafKeeps(g: Layout, trees: Forest, nodes: map<nat, Cached>, n: nat, h: Hash, remember: bool)
    requires Keeps(g, trees, nodes) && n < g.m && !Inside(g, trees, n) && h != Empty
    ensures Keeps(g, trees[n := Leaf(h)], nodes[n := Cached(h, remember)]) && n !in nodes
  {
    hide Above, Inside, Sees, TopsOk, TrueNodes, Provable, Aunts, Keeps;
    var trees', nodes' := trees[n := Leaf(h)], nodes[n := Cached(h, remember)];
    KeepsParts(g, trees, nodes);
    LeafTop(g, trees, n, h);
    LeafTrue(g, trees, nodes, n, h, remember);
    forall y: nat, c | c in Remembered(nodes') && AtOrAbove(g, y, c) && Inside(g, trees', y) && y !in trees'
      ensures Sibling(y) in nodes'
    {
      LeafInside(g, trees, n, h, y);
      if c == n {
        var t := TopAbove(g, trees, y);
        InsideBound(g, trees, y);
        AboveFar(g, t, y, n);
        InsideBelow(g, trees, t, n);
      } else {
        assert c in Remembered(nodes);
        ProvableAt(g, trees, nodes, y, c);
      }
    }
    AllProvable(g, trees', nodes');
    forall c | c in nodes' && c !in trees' && g.Up(c) !in trees'
      ensures Sibling(g.Up(c)) in nodes'
    {
      AuntAt(g, trees, nodes, c);
    }
    AllAunts(g, trees', nodes');
    KeepsWhole(g, trees', nodes');
  }

  lemma {:induction false} LeafInside(g: Layout, trees: Forest, n: nat, h: Hash, p: nat)
    requires n < g.m
    ensures Inside(g, trees[n := Leaf(h)], p) <==> Inside(g, trees, p) || p == n
    ensures p != n && !(n in trees) ==> Sees(g, trees[n := Leaf(h)], p) == Sees(g, trees, p)
    decreases 2 * g.m - p
  {
    if p != n && p !in trees && p < 2 * g.m - 1 { LeafInside(g, trees, n, h, g.Up(p)); }
  }

  lemma {:induction false} LeafTop(g: Layout, trees: Forest, n: nat, h: Hash)
    requires TopsOk(g, trees) && n < g.m && !Inside(g, trees, n) && h != Empty
    ensures TopsOk(g, trees[n := Leaf(h)])
  {
    hide Above, Inside;
    var trees' := trees[n := Leaf(h)];
    forall t, u | t in trees' && u in trees'
      ensures !Above(g, t, u)
    {
      if Above(g, t, u) {
        AboveBounds(g, t, u);
        if u == n { InsideBelow(g, trees, t, n); }
      }
    }
  }

  lemma {:induction false} LeafTrue(g: Layout, trees: Forest, nodes: map<nat, Cached>, n: nat, h: Hash, remember: bool)
    requires TrueNodes(g, trees, nodes) && n < g.m && !Inside(g, trees, n)
    ensures TrueNodes(g, trees[n := Leaf(h)], nodes[n := Cached(h, remember)]) && n !in nodes && n !in trees
  {
    var trees', nodes' := trees[n := Leaf(h)], nodes[n := Cached(h, remember)];
    assert n !in trees;
    assert Sees(g, trees', n) == Leaf(h);
    hide Inside, Sees;
    forall p: nat
      ensures Inside(g, trees', p) <==> Inside(g, trees, p) || p == n
      ensures p != n ==> Sees(g, trees', p) == Sees(g, trees, p)
    {
      LeafInside(g, trees, n, h, p);
    }
    forall p: nat | p in nodes'
      ensures Inside(g, trees', p) && nodes'[p].hash == Merkle(Sees(g, trees', p)) &&
              (p !in trees' ==> !Sees(g, trees', p).Nil?) && (nodes'[p].remember ==> Sees(g, trees', p).Leaf?)
    {
    }
    AllTrueNodes(g, trees', nodes');
  }

  /** One leaf is added to `n` leaves in `rows` rows. */
  ghost predicate Adding(o: Layout, g: Layout, rows: nat, n: nat) {
    LayoutFor(o, rows, n) && LayoutFor(g, rows, n + 1)
  }

  /** The tops when the carry has come to `c` on row `h`: the roots from that row on, and `c`. */
  ghost function CarryTops(o: Layout, g: Layout, rows: nat, slots: seq<Hash>, c: nat, h: nat): Forest {
    map p | p in g.nodes && (p == c || (o.IsRoot(p) && Valid(rows, p) && Row(rows, p) >= h)) :: Collapse(g, slots, p)
  }

  /** The place of the carry on row `h`. */
  ghost predicate CarryAt(g: Layout, rows: nat, n: nat, c: nat, h: nat) {
    && AllOnes(n, h) && h <= rows && c in g.nodes && Valid(rows, c) && Row(rows, c) == h && Offset(rows, c) == Shr(n, h)
  }

  lemma {:induction false} CarryStart(o: Layout, g: Layout, rows: nat, n: nat)
    requires Adding(o, g, rows, n)
    ensures CarryAt(g, rows, n, n, 0) && n < g.m && n !in o.nodes
  {
    hide LayoutFor;
    LayoutFits(o, rows, n);
    LayoutFits(g, rows, n + 1);
    LeafNode(o, rows, n, n);
    LeafNode(g, rows, n + 1, n);
    CollapseLeaf(g, rows, [], n);
  }

  /** The root of the row is beside the carry. */
  lemma {:induction false} CarryRoot(o: Layout, g: Layout, rows: nat, n: nat, c: nat, h: nat)
    requires Adding(o, g, rows, n) && CarryAt(g, rows, n, c, h) && Shr(n, h) % 2 == 1
    ensures var s := RootPosition(n, h, rows);
            && s + 1 == c && s % 2 == 0 && o.IsRoot(s) && s in g.nodes && Valid(rows, s) && Row(rows, s) == h
            && GivesWay(g, rows, s) && Sibling(s) == c && Sibling(c) == s
            && CarryAt(g, rows, n, g.Up(c), h + 1) && g.Up(c) == Parent(rows, c) && c !in o.nodes && g.Up(c) !in o.nodes
            && g.Left(g.Up(c)) == s && g.Right(g.Up(c)) == c && g.Up(s) == g.Up(c) && g.Up(c) < 2 * g.m - 1
  {
    hide LayoutFor, Row, Offset, Start, Pow2, IsRoot, Layout.WellShaped;
    LayoutFits(o, rows, n);
    LayoutFits(g, rows, n + 1);
    CarryShr(n, h);
    var s := RootPosition(n, h, rows);
    RootOnRow(n, rows, h);
    RootIsLeft(rows, n, s);
    LayoutAt(o, rows, n, s);
    CarryNotTop(rows, n, h, s);
    RowStep(rows, s);
    SamePlace(rows, s + 1, c);
    RowStep(rows, c);
    var u := g.Up(c);
    AllOnesMore(n, h);
    CarryShr(n, h + 1);
    RowBounds(rows, u);
    LayoutAt(g, rows, n + 1, u);
    LayoutAt(o, rows, n, c);
    LayoutAt(o, rows, n, u);
    assert u in g.nodes && u >= g.m;
    g.ChildFacts(u);
  }

  lemma AllOnesMore(n: nat, h: nat)
    requires AllOnes(n, h) && Shr(n, h) % 2 == 1
    ensures AllOnes(n, h + 1) && Shr(n, h + 1) == Shr(n, h) / 2
  {
  }

  lemma {:induction false} CarryNotTop(rows: nat, n: nat, h: nat, s: nat)
    requires n + 1 <= Pow2(rows) && AllOnes(n, h) && Shr(n, h) % 2 == 1 && h <= rows && Valid(rows, s) &&
             Row(rows, s) == h
    ensures h < rows && s < 2 * Pow2(rows) - 2
  {
    hide Row, Shr;
    CarryShr(n, h);
    ShrBound(n + 1, rows, h);
    if h == rows { PowNone(); }
    if s >= 2 * Pow2(rows) - 2 { StartEven(rows, rows); RowUnique(rows, s, rows); }
  }

  /** One step of the carry makes one top of two. */
  lemma {:induction false} CarryFuses(o: Layout, g: Layout, rows: nat, n: nat, slots: seq<Hash>, c: nat, h: nat)
    requires Adding(o, g, rows, n) && CarryAt(g, rows, n, c, h) && Shr(n, h) % 2 == 1
    ensures var s, tops := RootPosition(n, h, rows), CarryTops(o, g, rows, slots, c, h);
            && s in tops && c in tops && Sibling(s) == c
            && CarryTops(o, g, rows, slots, g.Up(c), h + 1) == Fused(g, s, tops, Join(tops[s], tops[c]))
  {
    hide LayoutFor, Row, Offset, Start, Pow2, Layout.IsRoot, Layout.WellShaped, CarryAt, Adding, GivesWay, Collapse;
    CarryNode(g, rows, n, c, h);
    var s, tops := RootPosition(n, h, rows), CarryTops(o, g, rows, slots, c, h);
    CarryRoot(o, g, rows, n, c, h);
    var u := g.Up(c);
    CarryNode(g, rows, n, u, h + 1);
    CollapseStep(g, slots, u);
    forall p: nat | o.IsRoot(p) && Valid(rows, p) && Row(rows, p) == h
      ensures p == s
    {
      OneRootOnRow(o, g, rows, n, h, p);
    }
    RootsNotNew(o, c, u);
    assert CarryTops(o, g, rows, slots, u, h + 1).Keys == Fused(g, s, tops, Join(tops[s], tops[c])).Keys;
  }

  lemma RootsNotNew(o: Layout, c: nat, u: nat)
    requires c !in o.nodes && u !in o.nodes
    ensures !o.IsRoot(c) && !o.IsRoot(u)
  {
  }

  lemma CarryNode(g: Layout, rows: nat, n: nat, c: nat, h: nat)
    requires CarryAt(g, rows, n, c, h)
    ensures c in g.nodes && Valid(rows, c) && Row(rows, c) == h <= rows
  {
    hide Row, Offset;
  }

  lemma {:induction false} OneRootOnRow(o: Layout, g: Layout, rows: nat, n: nat, h: nat, p: nat)
    requires Adding(o, g, rows, n) && o.IsRoot(p) && Valid(rows, p) && Row(rows, p) == h && Shr(n, h) % 2 == 1
    ensures h <= rows && p == RootPosition(n, h, rows)
  {
    hide LayoutFor, Row, Offset, Start, Pow2, Layout.IsRoot, Layout.WellShaped, IsRoot;
    LayoutFits(o, rows, n);
    LayoutAt(o, rows, n, p);
    RootIsLeft(rows, n, p);
    RootOnRow(n, rows, h);
    RootValid(rows, n, RootPosition(n, h, rows));
    SamePlace(rows, p, RootPosition(n, h, rows));
  }

  /** When the carry stops, the tops are the roots. */
  lemma {:induction false} CarryEnds(o: Layout, g: Layout, rows: nat, n: nat, slots: seq<Hash>, c: nat, h: nat)
    requires Adding(o, g, rows, n) && CarryAt(g, rows, n, c, h) && Shr(n, h) % 2 == 0
    ensures CarryTops(o, g, rows, slots, c, h) == ForestOf(g, slots)
  {
    hide LayoutFor, Row, Offset, Layout.IsRoot, Layout.WellShaped, CarryAt, Adding, Collapse;
    forall p | p in g.nodes
      ensures g.IsRoot(p) <==> p == c || (o.IsRoot(p) && Valid(rows, p) && Row(rows, p) >= h)
    {
      EndRoot(o, g, rows, n, c, h, p);
    }
    assert CarryTops(o, g, rows, slots, c, h).Keys == ForestOf(g, slots).Keys;
  }

  lemma {:induction false} EndRoot(o: Layout, g: Layout, rows: nat, n: nat, c: nat, h: nat, p: nat)
    requires Adding(o, g, rows, n) && CarryAt(g, rows, n, c, h) && Shr(n, h) % 2 == 0 && p in g.nodes
    ensures g.IsRoot(p) <==> p == c || (o.IsRoot(p) && Valid(rows, p) && Row(rows, p) >= h)
  {
    hide LayoutFor, Row, Offset, Layout.IsRoot, Layout.WellShaped, IsRoot, Pow2, Shr;
    LayoutFits(o, rows, n);
    LayoutFits(g, rows, n + 1);
    LayoutAt(o, rows, n, p);
    LayoutAt(g, rows, n + 1, p);
    g.NodeBound(p);
    RootIff(rows, n + 1, p);
    var r := Row(rows, p);
    if InForest(rows, n, p) { RootIff(rows, n, p); } else { NotARoot(rows, n, p); }
    if r < h {
      CarryShr(n, r);
    } else if r == h {
      CarryShr(n, h);
      if Offset(rows, p) == Shr(n, h) { SamePlace(rows, p, c); }
    } else {
      CarryAbove(n, h, r);
    }
  }

  lemma NotARoot(rows: nat, n: nat, p: nat)
    requires !InForest(rows, n, p)
    ensures !IsRoot(rows, n, p)
  {
  }

  /** At the start the tops are the old roots and the new leaf. */
  lemma {:induction false} CarryBegins(o: Layout, g: Layout, rows: nat, before: seq<Hash>, leaf: Hash)
    requires Adding(o, g, rows, |before|) && leaf != Empty
    ensures CarryTops(o, g, rows, before + [leaf], |before|, 0) == ForestOf(o, before)[|before| := Leaf(leaf)]
  {
    hide LayoutFor, Row, Offset, Layout.IsRoot, Layout.WellShaped, Grows;
    var n, slots := |before|, before + [leaf];
    LayoutFits(o, rows, n);
    LayoutFits(g, rows, n + 1);
    CarryStart(o, g, rows, n);
    GrowsFor(rows, before, [leaf], o, g);
    NodesGrow(o, g, before, leaf);
    assert Collapse(g, slots, n) == Leaf(leaf);
    hide Collapse;
    forall p | p in o.nodes
      ensures Collapse(g, slots, p) == Collapse(o, before, p) && Valid(rows, p) && p in g.nodes
    {
      CollapsePrefix(o, g, before, [leaf], p);
      o.NodeBound(p);
    }
    forall p | p in g.nodes && o.IsRoot(p)
      ensures p in o.nodes
    {
      RootNode(o, p);
    }
    assert CarryTops(o, g, rows, slots, n, 0).Keys == ForestOf(o, before)[n := Leaf(leaf)].Keys;
  }

  lemma NodesGrow(o: Layout, g: Layout, before: seq<Hash>, leaf: Hash)
    requires Grows(o, g, before, [leaf])
    ensures o.nodes <= g.nodes
  {
  }
}
