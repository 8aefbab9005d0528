/** The forest a cache is about, and one deletion from it. */
module MapForest {
  import opened Hashes
  import opened Positions
  import opened Layouts
  import opened Forests
  import opened Deletion
  import opened Sequential
  import opened Uniqueness
  import opened OneDeletion
  import opened UpdateData
  import opened MapTheory
  import opened MapLift

  lemma {:induction false} UpNode(g: Layout, p: nat)
    requires g.WellShaped() && g.Up(p) in g.nodes
    ensures p in g.nodes
  {
    assert g.Left(g.Up(p)) == LeftSib(p);
  }

  /** Below the roots are the nodes of the forest. */
  lemma {:induction false} InsideIff(g: Layout, f: Forest, p: nat)
    requires ForestOk(g, f)
    ensures Inside(g, f, p) <==> p in g.nodes
    decreases 2 * g.m - p
  {
    hide Layout.WellShaped, Fits;
    if p !in f && p < 2 * g.m - 1 {
      InsideIff(g, f, g.Up(p));
      if g.Up(p) in g.nodes { UpNode(g, p); }
    }
    if p in g.nodes { g.NodeBound(p); }
  }

  lemma {:induction false} SeesAt(g: Layout, f: Forest, p: nat)
    requires ForestOk(g, f)
    ensures Sees(g, f, p) == At(g, f, p)
    decreases 2 * g.m - p
  {
    hide Layout.WellShaped, Fits;
    if p in g.nodes { g.NodeBound(p); }
    if p !in f && p < 2 * g.m - 1 {
      SeesAt(g, f, g.Up(p));
      if g.Up(p) in g.nodes { UpNode(g, p); }
    }
  }

  lemma {:induction false} ForestTops(g: Layout, f: Forest)
    requires AllSolid(g, f)
    ensures TopsOk(g, f)
  {
    hide Layout.WellShaped, Fits, Above;
    forall t | t in f
      ensures t < 2 * g.m - 1
    {
      g.NodeBound(t);
    }
    forall t, u | t in f && u in f
      ensures !Above(g, t, u)
    {
      if t != u { RootsApart(g, t, u); } else if Above(g, t, u) { AboveBounds(g, t, u); }
    }
  }

  /** What is at a position not below the parent of `d`, when `d` is deleted. */
  lemma {:induction false} AtDeleted(g: Layout, f: Forest, d: nat, q: nat)
    requires AllSolid(g, f) && d in g.nodes && !g.IsRoot(d) && q in g.nodes && !Above(g, g.Up(d), q)
    ensures At(g, Deleted(g, f, {d}), q) == Rem(g, {d}, q, At(g, f, q))
    decreases 2 * g.m - q
  {
    hide Layout.WellShaped, Above, Fits, Rem, Solid, FitsBelow;
    g.NodeBound(q);
    if !g.IsRoot(q) {
      g.NonRootFacts(q);
      g.NonRootFacts(d);
      var u := g.Up(q);
      if Above(g, g.Up(d), u) { AboveTrans(g, g.Up(d), q); }
      AtDeleted(g, f, d, u);
      NotAtParent(g, d, q);
      RemChildren(g, f, d, u);
      RemNil(g, {d}, q);
    }
  }

  lemma {:induction false} NotAtParent(g: Layout, d: nat, q: nat)
    requires g.WellShaped() && d in g.nodes && q in g.nodes && !g.IsRoot(d) && !g.IsRoot(q) && !Above(g, g.Up(d), q)
    ensures g.Up(q) != g.Up(d) && g.Up(q) != d
  {
    g.NonRootFacts(d);
    g.NonRootFacts(q);
  }

  /** A deletion elsewhere leaves both children of a node. */
  lemma {:induction false} RemChildren(g: Layout, f: Forest, d: nat, u: nat)
    requires AllSolid(g, f) && d in g.nodes && u in g.nodes && u >= g.m && u != d && u != g.Up(d)
    ensures var t, r := At(g, f, u), Rem(g, {d}, u, At(g, f, u));
            if t.Node? then r == Node(Rem(g, {d}, g.Left(u), t.left), Rem(g, {d}, g.Right(u), t.right)) else r == t
  {
    hide Above;
    var t := At(g, f, u);
    if t.Node? {
      g.ChildFacts(u);
      AtFits(g, f, u);
      AtSolid(g, f, u);
      RemKeeps(g, d, g.Left(u), t.left);
      RemKeeps(g, d, g.Right(u), t.right);
    }
  }

  /** The sibling takes the place of the parent. */
  lemma {:induction false} AtParent(g: Layout, f: Forest, d: nat)
    requires AllSolid(g, f) && d in g.nodes && !g.IsRoot(d) && !At(g, f, d).Nil?
    ensures At(g, Deleted(g, f, {d}), g.Up(d)) == At(g, f, Sibling(d)) && !At(g, f, Sibling(d)).Nil?
  {
    hide Layout.WellShaped, Above, Rem, Deleted;
    var u := g.Up(d);
    g.NonRootFacts(d);
    UpAbove(g, d);
    if Above(g, u, u) { AboveBounds(g, u, u); }
    AtDeleted(g, f, d, u);
    AtFits(g, f, u);
    AtSolid(g, f, u);
    g.ChildFacts(u);
    RemAtParent(g, d, At(g, f, u));
    NodeAbove(g, f, d, u);
    AtChildren(g, f, u);
  }

  lemma {:induction false} RemAtParent(g: Layout, d: nat, t: Tree)
    requires g.WellShaped() && d in g.nodes && !g.IsRoot(d) && FitsBelow(g, g.Up(d), t) && Solid(t)
    ensures t.Node? ==> Rem(g, {d}, g.Up(d), t) == if d % 2 == 0 then t.right else t.left
  {
    hide Above, Layout.WellShaped;
    var u := g.Up(d);
    g.NonRootFacts(d);
    if t.Node? {
      SiblingsApart(g, u);
      NotBelow(g, Sibling(d), d, if d % 2 == 0 then t.right else t.left);
    }
  }

  /** What is below the sibling of `d` moves up with it. */
  lemma {:induction false} AtShifted(g: Layout, f: Forest, rows: nat, d: nat, p: nat)
    requires GivesWay(g, rows, d) && AllSolid(g, f) && !At(g, f, d).Nil? && AtOrAbove(g, Sibling(d), p)
    ensures At(g, Deleted(g, f, {d}), Shift(g, d, p)) == At(g, f, p)
    decreases 2 * g.m - p
  {
    hide Layout.WellShaped, Above, Rem, Deleted, Shift, Layout.IsRoot, AllSolid;
    MoveFacts(g, rows, d, p);
    if p == Sibling(d) {
      AtParent(g, f, d);
    } else {
      AtShifted(g, f, rows, d, g.Up(p));
      ShiftParity(g, rows, d, p);
      AtChild(g, f, p);
      AtChild(g, Deleted(g, f, {d}), Shift(g, d, p));
    }
  }

  lemma {:induction false} ShiftParity(g: Layout, rows: nat, d: nat, p: nat)
    requires GivesWay(g, rows, d) && Above(g, Sibling(d), p) && p in g.nodes
    ensures Shift(g, d, p) % 2 == p % 2
    ensures p in g.nodes && !g.IsRoot(p) && Shift(g, d, p) in g.nodes && !g.IsRoot(Shift(g, d, p))
  {
    hide Layout.WellShaped, Above, Shift, Child, Layout.IsRoot;
    g.NonRootFacts(d);
    if p == Sibling(d) { AboveBounds(g, p, p); }
    ShiftFacts(g, d, p);
    ChildParity(g, Shift(g, d, g.Up(p)), p % 2);
  }

  lemma AtChild(g: Layout, f: Forest, p: nat)
    requires g.WellShaped() && p in g.nodes && !g.IsRoot(p)
    ensures At(g, f, p) == match At(g, f, g.Up(p)) case Node(l, r) => if p % 2 == 0 then l else r case _ => Nil
  {
    g.NodeBound(p);
  }

  /** Elsewhere a deletion changes nothing, but above `d`. */
  lemma {:induction false} AtElsewhere(g: Layout, f: Forest, d: nat, p: nat)
    requires AllSolid(g, f) && d in g.nodes && !g.IsRoot(d) && !Affected(g, d, p)
    ensures !Above(g, p, g.Up(d)) ==> At(g, Deleted(g, f, {d}), p) == At(g, f, p)
    ensures Above(g, p, g.Up(d)) && p in g.nodes && !At(g, f, d).Nil? ==>
              At(g, f, p).Node? && At(g, Deleted(g, f, {d}), p).Node?
  {
    hide Layout.WellShaped, Above, Rem, Deleted, Layout.IsRoot;
    if p in g.nodes {
      g.NonRootFacts(d);
      UpAbove(g, d);
      AtDeleted(g, f, d, p);
      AtFits(g, f, p);
      AtSolid(g, f, p);
      if !Above(g, p, g.Up(d)) {
        if Above(g, p, d) { AboveParent(g, p, d); }
        NotBelow(g, p, d, At(g, f, p));
      } else {
        AboveBounds(g, p, g.Up(d));
        AboveTrans(g, p, d);
        if !At(g, f, d).Nil? { NodeAbove(g, f, d, p); RemChildren(g, f, d, p); }
      }
    } else {
      AtNowhere(g, f, p);
      AtNowhere(g, Deleted(g, f, {d}), p);
    }
  }

  lemma AtNowhere(g: Layout, f: Forest, p: nat)
    requires p !in g.nodes
    ensures At(g, f, p) == Nil
  {
  }

  /** Deleting a position that is not a root, as a move. */
  lemma {:induction false} DeletionLifts(g: Layout, f: Forest, rows: nat, d: nat)
    requires GivesWay(g, rows, d) && AllSolid(g, f) && !At(g, f, d).Nil?
    ensures var f' := Deleted(g, f, {d});
            TopsLift(g, d, f, f') && TreesLift(g, d, f, f') && d !in f && !Sees(g, f, Sibling(d)).Nil?
  {
    hide Layout.WellShaped, Above, Rem, Shift, Layout.IsRoot, Sees, Inside, TopsOk, At, ForestOk;
    var f' := Deleted(g, f, {d});
    SolidAfter(g, f, d);
    ForestTops(g, f);
    ForestTops(g, f');
    g.NonRootFacts(d);
    AtParent(g, f, d);
    SolidKeys(g, f);
    SeesAt(g, f, Sibling(d));
    InsideIff(g, f', g.Up(d));
    forall p: nat
      ensures Inside(g, f', p) <==> Inside(g, f, p)
    {
      InsideIff(g, f, p);
      InsideIff(g, f', p);
    }
    forall p: nat | Above(g, g.Up(d), p)
      ensures p !in f' && Inside(g, f, p)
    {
      BelowNode(g, g.Up(d), p);
      RootBelow(g, g.Up(d), p);
      NotRootBelow(g, p);
      InsideIff(g, f, p);
    }
    forall p: nat | AtOrAbove(g, Sibling(d), p)
      ensures Sees(g, f', Shift(g, d, p)) == Sees(g, f, p)
    {
      SeesAt(g, f, p);
      SeesAt(g, f', Shift(g, d, p));
      AtShifted(g, f, rows, d, p);
    }
    forall p: nat | !Affected(g, d, p)
      ensures !Above(g, p, g.Up(d)) ==> Sees(g, f', p) == Sees(g, f, p)
      ensures Above(g, p, g.Up(d)) && Inside(g, f, p) ==> Sees(g, f, p).Node? && Sees(g, f', p).Node?
    {
      SeesAt(g, f, p);
      SeesAt(g, f', p);
      InsideIff(g, f, p);
      AtElsewhere(g, f, d, p);
    }
  }

  lemma SolidKeys(g: Layout, f: Forest)
    requires AllSolid(g, f)
    ensures ForestOk(g, f) && forall p: nat :: p in f <==> g.IsRoot(p)
  {
  }

  lemma {:induction false} InsideKeys(g: Layout, a: Forest, b: Forest, p: nat)
    requires a.Keys == b.Keys
    ensures Inside(g, a, p) <==> Inside(g, b, p)
    decreases 2 * g.m - p
  {
    if p !in a && p < 2 * g.m - 1 { InsideKeys(g, a, b, g.Up(p)); }
  }

  lemma {:induction false} SeesApart(g: Layout, f: Forest, d: nat, t: Tree, p: nat)
    requires d in f && !AtOrAbove(g, d, p)
    ensures Sees(g, f[d := t], p) == Sees(g, f, p)
    decreases 2 * g.m - p
  {
    hide Above;
    if p !in f && p < 2 * g.m - 1 {
      if AtOrAbove(g, d, g.Up(p)) { AboveTrans(g, d, p); }
      SeesApart(g, f, d, t, g.Up(p));
    }
  }

  lemma {:induction false} DeletedRoot(g: Layout, f: Forest, d: nat)
    requires AllSolid(g, f) && g.IsRoot(d)
    ensures Deleted(g, f, {d}) == f[d := Nil]
  {
    hide Layout.WellShaped, Above;
    forall r | r in f
      ensures Rem(g, {d}, r, f[r]) == if r == d then Nil else f[r]
    {
      if r != d {
        RootsApart(g, r, d);
        SolidTree(g, f, r);
        NotBelow(g, r, d, f[r]);
      }
    }
  }

  /** The cache without what is below a root, which is marked as empty. */
  ghost predicate RootEmptied(g: Layout, d: nat, nodes: map<nat, Cached>, nodes': map<nat, Cached>) {
    && (forall p: nat :: p in nodes' <==> p == d || (p in nodes && !Above(g, d, p)))
    && d in nodes' && nodes'[d] == Cached(Empty, false)
    && forall p: nat :: p in nodes' && p in nodes && p != d ==> nodes'[p] == nodes[p]
  }

  /** Deleting a root. */
  lemma {:induction false} RootDeleted(g: Layout, f: Forest, d: nat, nodes: map<nat, Cached>, nodes': map<nat, Cached>)
    requires AllSolid(g, f) && g.IsRoot(d) && Keeps(g, f, nodes) && RootEmptied(g, d, nodes, nodes')
    ensures Keeps(g, Deleted(g, f, {d}), nodes')
  {
    hide Layout.WellShaped, Above, Layout.IsRoot, Inside, Sees, Deleted, AllSolid, Provable, Aunts, RootEmptied,
         TrueNodes, TopsOk, Keeps;
    KeepsParts(g, f, nodes);
    DeletedRoot(g, f, d);
    SolidKeys(g, f);
    var f' := f[d := Nil];
    RootNode(g, d);
    SolidAfter(g, f, d);
    ForestTops(g, f');
    forall p: nat
      ensures Inside(g, f', p) <==> Inside(g, f, p)
      ensures !AtOrAbove(g, d, p) ==> Sees(g, f', p) == Sees(g, f, p)
    {
      InsideKeys(g, f, f', p);
      if !AtOrAbove(g, d, p) { SeesApart(g, f, d, Nil, p); }
    }
    RootTrue(g, f, d, nodes, nodes');
    forall y: nat, c | c in Remembered(nodes') && AtOrAbove(g, y, c) && Inside(g, f', y) && y !in f'
      ensures Sibling(y) in nodes'
    {
      RootKeepsSibling(g, f, d, nodes, nodes', y, c);
    }
    AllProvable(g, f', nodes');
    forall c | c in nodes' && c !in f' && g.Up(c) !in f'
      ensures Sibling(g.Up(c)) in nodes'
    {
      RootKeepsAunt(g, f, d, nodes, nodes', c);
    }
    AllAunts(g, f', nodes');
    KeepsWhole(g, f', nodes');
  }

  lemma KeepsParts(g: Layout, trees: Forest, nodes: map<nat, Cached>)
    requires Keeps(g, trees, nodes)
    ensures TopsOk(g, trees) && TrueNodes(g, trees, nodes) && Provable(g, trees, nodes) && Aunts(g, trees, nodes)
  {
    hide TopsOk, TrueNodes, Provable, Aunts;
  }

  lemma KeepsWhole(g: Layout, trees: Forest, nodes: map<nat, Cached>)
    requires TopsOk(g, trees) && TrueNodes(g, trees, nodes) && Provable(g, trees, nodes) && Aunts(g, trees, nodes)
    ensures Keeps(g, trees, nodes)
  {
    hide TopsOk, TrueNodes, Provable, Aunts;
  }

  lemma {:induction false} RootTrue(g: Layout, f: Forest, d: nat, nodes: map<nat, Cached>, nodes': map<nat, Cached>)
    requires TopsOk(g, f) && d in f && TrueNodes(g, f, nodes) && RootEmptied(g, d, nodes, nodes')
    requires forall p: nat :: Inside(g, f[d := Nil], p) <==> Inside(g, f, p)
    requires forall p: nat :: !AtOrAbove(g, d, p) ==> Sees(g, f[d := Nil], p) == Sees(g, f, p)
    ensures TrueNodes(g, f[d := Nil], nodes')
  {
    hide Above, Inside, TopsOk;
    var f' := f[d := Nil];
    assert Sees(g, f', d) == Nil && Inside(g, f', d);
    hide Sees;
    forall t: nat | t in f'
      ensures t in nodes'
    {
      NoTopAbove(g, f, d, t);
    }
    forall p: nat | p in nodes'
      ensures Inside(g, f', p) && nodes'[p].hash == Merkle(Sees(g, f', p)) &&
              (p !in f' ==> !Sees(g, f', p).Nil?) && (nodes'[p].remember ==> Sees(g, f', p).Leaf?)
    {
      if p != d { assert !AtOrAbove(g, d, p); }
    }
    AllTrueNodes(g, f', nodes');
  }

  lemma NoTopAbove(g: Layout, f: Forest, d: nat, t: nat)
    requires TopsOk(g, f) && d in f && t in f
    ensures !Above(g, d, t)
  {
    hide Above;
  }

  lemma {:induction false} RootKeepsSibling(g: Layout, f: Forest, d: nat, nodes: map<nat, Cached>,
                                            nodes': map<nat, Cached>, y: nat, c: nat)
    requires TopsOk(g, f) && d in f && Provable(g, f, nodes) && RootEmptied(g, d, nodes, nodes')
    requires c in Remembered(nodes') && AtOrAbove(g, y, c) && Inside(g, f, y) && y !in f
    ensures Sibling(y) in nodes'
  {
    hide Above, Inside, TopsOk, Provable;
    assert c in Remembered(nodes);
    ProvableAt(g, f, nodes, y, c);
    if Above(g, d, Sibling(y)) {
      InsideUp(g, f, y);
      AboveParent(g, d, Sibling(y));
      AboveTrans(g, d, y);
      AboveFar(g, d, y, c);
    }
  }

  lemma {:induction false} RootKeepsAunt(g: Layout, f: Forest, d: nat, nodes: map<nat, Cached>,
                                         nodes': map<nat, Cached>, c: nat)
    requires TopsOk(g, f) && d in f && Aunts(g, f, nodes) && TrueNodes(g, f, nodes) && RootEmptied(g, d, nodes, nodes')
    requires c in nodes' && c !in f && g.Up(c) !in f
    ensures Sibling(g.Up(c)) in nodes'
  {
    hide Above, Inside, TopsOk, Sees, Aunts;
    assert c in nodes && Inside(g, f, c);
    AuntAt(g, f, nodes, c);
    if Above(g, d, Sibling(g.Up(c))) {
      InsideUp(g, f, c);
      InsideUp(g, f, g.Up(c));
      AboveParent(g, d, Sibling(g.Up(c)));
      AboveTrans(g, d, g.Up(c));
      AboveTrans(g, d, c);
    }
  }
}
