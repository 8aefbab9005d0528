/** What the steps of the map pollard keep lean. */
module MapLeanSteps {
  import opened Hashes
  import opened Positions
  import opened Geometry
  import opened Layouts
  import opened Forests
  import opened Deletion
  import opened Sequential
  import opened Uniqueness
  import opened OneDeletion
  import opened Slots
  import opened Pollards
  import opened MapTheory
  import opened MapLift
  import opened MapForest
  import opened MapMoves
  import opened MapLevels
  import opened MapSteps
  import opened MapRemove
  import opened MapFuse
  import opened MapAdd
  import opened MapGrow
  import opened MapCarry
  import opened MapRemap
  import opened MapProofs
  import opened MapDeletions
  import opened Honest
  import opened Shape
  import opened DeTwin
  import opened Relocation
  import opened Translation
  import opened MapLean

  /** A deletion below a root, before pruning. */
  lemma {:induction false} RemovalLean(g: Layout, rows: nat, f: Forest, d: nat, start: map<nat, Cached>,
                                       moved: map<nat, Cached>, nodes: map<nat, Cached>, but: set<nat>)
    requires AllSolid(g, f) && GivesWay(g, rows, d) && Keeps(g, f, start) && Watched(g, start, d) && Sibling(d) in start
    requires NodesLift(g, d, start, moved) && Rehashed(g, Deleted(g, f, {d}), g.Up(d), moved, nodes)
    requires forall p: nat :: !Affected(g, d, p) && p in start && p in moved ==> moved[p] == start[p]
    requires Lean(g, f, start, but + Around(g, d)) && forall p :: p in but ==> !Above(g, g.Up(d), p)
    ensures Lean(g, Deleted(g, f, {d}), nodes, but + Way(g, g.Up(d)))
  {
    hide Above, Layout.WellShaped, AllSolid, Layout.IsRoot, Inside, Sees, Merkle, Watched, Provable, Aunts, At, Deleted,
         Shift, TreesLift, TopsLift, NodesLift, ForestOk, Keeps, TrueNodes, Rehashed, HashesAbove, SameElsewhere, Lean,
         Around, Way;
    var f' := Deleted(g, f, {d});
    WatchedFacts(g, f, start, d);
    KeepsParts(g, f, start);
    DeletionLifts(g, f, rows, d);
    RehashedLift(g, rows, d, f, f', start, moved, nodes);
    AllInside(g, f, start);
    LiftLean(g, rows, d, f, f', start, nodes, but);
  }

  /** Deleting a root. */
  lemma {:induction false} RootLean(g: Layout, f: Forest, f': Forest, d: nat, nodes: map<nat, Cached>,
                                    nodes': map<nat, Cached>, but: set<nat>)
    requires TopsOk(g, f) && TrueNodes(g, f, nodes) && d in f && f'.Keys == f.Keys && RootEmptied(g, d, nodes, nodes')
    requires Lean(g, f, nodes, but + Around(g, d))
    ensures Lean(g, f', nodes', but)
  {
    hide Above, Inside, TopsOk, Sees, Merkle, AtOrAbove, Needed, RootEmptied, Around;
    forall p | p in nodes' && p !in f' && p !in but
      ensures Needed(g, nodes', p)
    {
      RootNeeds(g, f, d, nodes, nodes', but, p);
    }
  }

  lemma {:induction false} RootNeeds(g: Layout, f: Forest, d: nat, nodes: map<nat, Cached>, nodes': map<nat, Cached>,
                                     but: set<nat>, p: nat)
    requires TopsOk(g, f) && TrueNodes(g, f, nodes) && d in f && RootEmptied(g, d, nodes, nodes')
    requires Lean(g, f, nodes, but + Around(g, d)) && p in nodes' && p !in f && p !in but
    ensures Needed(g, nodes', p)
  {
    hide Above, Inside, TopsOk, Sees, Merkle;
    var q := Sibling(p);
    assert p in nodes && Inside(g, f, p);
    InsideUp(g, f, p);
    InsideNotAbove(g, f, p, d);
    InsideNotAbove(g, f, q, d);
    assert Needed(g, nodes, p);
    if Above(g, d, q) { AboveParent(g, d, q); AboveTrans(g, d, p); }
    if q >= g.m {
      InsideBound(g, f, q);
      InsideChild(g, f, q);
      ChildUp(g, q);
      if Above(g, d, g.Left(q)) { AboveParent(g, d, g.Left(q)); }
      if Above(g, d, g.Right(q)) { AboveParent(g, d, g.Right(q)); }
    }
  }

  /** Two tops joined. */
  lemma {:induction false} JoinLean(g: Layout, rows: nat, s: nat, trees: Forest, x: Tree, nodes: map<nat, Cached>,
                                    e: Cached)
    requires Pair(g, rows, s, trees) && Lean(g, trees, nodes, {}) && g.Up(s) !in nodes && !e.remember
    ensures Lean(g, Fused(g, s, trees, x), nodes[g.Up(s) := e], Way(g, s))
  {
    hide Above, Layout.WellShaped, Layout.IsRoot, TopsOk, Pair, Inside;
    PairFacts(g, rows, s, trees);
    SiblingBack(s);
  }

  lemma LeanMore(g: Layout, trees: Forest, nodes: map<nat, Cached>, a: set<nat>, b: set<nat>)
    requires Lean(g, trees, nodes, a) && a <= b
    ensures Lean(g, trees, nodes, b)
  {
    hide Needed;
  }

  /** Pruning just below a top. */
  lemma {:induction false} PruneBelowTop(g: Layout, rows: nat, trees: Forest, nodes: map<nat, Cached>, s: nat)
    requires g.m == Pow2(rows) && Keeps(g, trees, nodes) && Inside(g, trees, s) && s !in trees && g.Up(s) in trees
    requires Lean(g, trees, nodes, Way(g, s))
    ensures Valid(rows, s) && Valid(rows, Sibling(s)) && Lean(g, trees, PrunePosition(rows, nodes, s), {})
  {
    hide Above, Inside, Keeps, PrunePosition, Lean, Way, Pow2, TrueNodes, TopsOk, Provable, Aunts;
    assert {} + Way(g, s) == Way(g, s);
    PruneKeeps(g, rows, trees, nodes, s);
    PruneLean(g, rows, trees, nodes, s, {});
    KeepsParts(g, trees, PrunePosition(rows, nodes, s));
    WayOfTop(g, trees, PrunePosition(rows, nodes, s), g.Up(s), {});
  }

  /** A root that is not empty is joined with the carry. */
  lemma {:induction false} JoinStepLean(o: Layout, g: Layout, rows: nat, slots: seq<Hash>, add: Cached, c: nat, h: nat,
                                        node: Cached, nodes: map<nat, Cached>, cached: map<Hash, nat>)
    requires AtRow(o, g, rows, slots, add, c, h, node, nodes, cached) && Shr(|slots| - 1, h) % 2 == 1
    requires h <= rows && RootPosition(|slots| - 1, h, rows) in nodes &&
             nodes[RootPosition(|slots| - 1, h, rows)].hash != Empty
    requires Lean(g, CarryTops(o, g, rows, slots, c, h), nodes, {})
    ensures var s := RootPosition(|slots| - 1, h, rows);
            var node' := Cached(ParentHash(nodes[s].hash, node.hash), false);
            && Valid(rows, s) && Valid(rows, Sibling(s))
            && Lean(g, CarryTops(o, g, rows, slots, g.Up(c), h + 1), PrunePosition(rows, nodes[g.Up(c) := node'], s),
                    {})
  {
    hide Above, Keeps, Inside, Linked, TopsOk, Adding, CarryAt, GivesWay, Pow2, CarryTops, Row, Layout.WellShaped,
         Layout.IsRoot, Fused, PrunePosition, Pair, Carrying, Lean, Way;
    RowFacts(o, g, rows, slots, add, c, h, node, nodes, cached);
    var s, tops, u := RootPosition(|slots| - 1, h, rows), CarryTops(o, g, rows, slots, c, h), g.Up(c);
    var node' := Cached(ParentHash(nodes[s].hash, node.hash), false);
    PairTops(g, rows, s, tops);
    JoinKeeps(g, rows, s, tops, nodes);
    JoinLean(g, rows, s, tops, Join(tops[s], tops[c]), nodes, node');
    FusedPair(g, rows, s, tops, Join(tops[s], tops[c]));
    PruneBelowTop(g, rows, CarryTops(o, g, rows, slots, u, h + 1), nodes[u := node'], s);
  }

  /** The carry moves over an empty root. */
  lemma {:induction false} EmptyStepLean(o: Layout, g: Layout, rows: nat, slots: seq<Hash>, add: Cached, c: nat, h: nat,
                                         node: Cached, nodes: map<nat, Cached>, cached: map<Hash, nat>,
                                         moved: map<nat, Cached>, cached': map<Hash, nat>)
    requires AtRow(o, g, rows, slots, add, c, h, node, nodes, cached) && Shr(|slots| - 1, h) % 2 == 1
    requires h <= rows && RootPosition(|slots| - 1, h, rows) in nodes &&
             nodes[RootPosition(|slots| - 1, h, rows)].hash == Empty
    requires var s := RootPosition(|slots| - 1, h, rows);
             MovedSet(g, s, nodes - {c}, moved, AllUnder(g, s)) && Linked(moved[g.Up(c) := node], cached')
    requires Lean(g, CarryTops(o, g, rows, slots, c, h), nodes, {})
    ensures var s := RootPosition(|slots| - 1, h, rows);
            && Valid(rows, s) && Valid(rows, Sibling(s))
            && Lean(g, CarryTops(o, g, rows, slots, g.Up(c), h + 1), PrunePosition(rows, moved[g.Up(c) := node], s), {})
  {
    hide Above, Keeps, Inside, Linked, TopsOk, Adding, CarryAt, GivesWay, Pow2, CarryTops, Row, Layout.WellShaped,
         Layout.IsRoot, Fused, PrunePosition, Pair, Carrying, Starts, Vacated, MovedSet, AllUnder, Fresh, Lean, Way;
    RowFacts(o, g, rows, slots, add, c, h, node, nodes, cached);
    var s, tops, u := RootPosition(|slots| - 1, h, rows), CarryTops(o, g, rows, slots, c, h), g.Up(c);
    assert EmptyTop(g, rows, s, tops, nodes);
    EmptyFacts(g, rows, s, tops, nodes);
    EmptyKeeps(g, rows, s, tops, nodes, moved);
    var tops', full, end := CarryTops(o, g, rows, slots, u, h + 1), moved[u := node], Fresh(g, s, nodes, moved);
    FusedPair(g, rows, s, tops, tops[c]);
    UpDiffers(g, rows, s);
    FreshIs(g, rows, s, nodes, moved, cached');
    if end != full { StalePruned(g, rows, s, tops', end, full); }
    EmptyLean(g, rows, s, tops, nodes, moved);
    LeanMore(g, tops', end, {}, Way(g, s));
    PruneBelowTop(g, rows, tops', end, s);
  }

  lemma {:induction false} EmptyLean(g: Layout, rows: nat, s: nat, trees: Forest, nodes: map<nat, Cached>,
                                     moved: map<nat, Cached>)
    requires EmptyTop(g, rows, s, trees, nodes) && MovedSet(g, s, nodes - {Sibling(s)}, moved, AllUnder(g, s))
    requires Lean(g, trees, nodes, {})
    ensures Sibling(s) in trees && Sibling(s) in nodes
    ensures Lean(g, Fused(g, s, trees, trees[Sibling(s)]), Fresh(g, s, nodes, moved), {})
  {
    hide Above, Layout.WellShaped, Layout.IsRoot, Inside, Keeps, MovedSet, Moves, Fresh, Fused, TopsLift, NodesLift,
         TreesLift, GivesWay, TopsOk, Sees, AllUnder, Affected, Lean, Way, Around, TrueNodes, Provable, Aunts;
    EmptyFacts(g, rows, s, trees, nodes);
    var trees', end := Fused(g, s, trees, trees[Sibling(s)]), Fresh(g, s, nodes, moved);
    EmptyLifts(g, rows, s, trees);
    EmptyMoves(g, rows, s, trees, nodes, moved);
    MovesLift(g, rows, s, nodes, nodes - {Sibling(s)}, moved, end);
    KeepsParts(g, trees, nodes);
    AllInside(g, trees, nodes);
    LeanMore(g, trees, nodes, {}, {} + Around(g, s));
    LiftLean(g, rows, s, trees, trees', nodes, end, {});
    EmptyKeeps(g, rows, s, trees, nodes, moved);
    KeepsParts(g, trees', end);
    FusedPair(g, rows, s, trees, trees[Sibling(s)]);
    WayOfTop(g, trees', end, g.Up(s), {});
  }

  /** A new top. */
  lemma {:induction false} FirstLean(o: Layout, g: Layout, f: Forest, nodes: map<nat, Cached>, n: nat, e: Cached,
                                     t: Tree)
    requires o.m == g.m && Lean(o, f, nodes, {}) && n !in nodes
    ensures Lean(g, f[n := t], nodes[n := e], {})
  {
    forall p | p in nodes && p !in f
      ensures Needed(g, nodes[n := e], p)
    {
      assert Needed(o, nodes, p);
    }
  }

  /** What is needed does not depend on the numbering. */
  lemma {:induction false} RemapLean(a: Layout, b: Layout, t: map<nat, nat>, slots: seq<Hash>, nodes: map<nat, Cached>,
                                     nodes': map<nat, Cached>)
    requires SameForest(a, b, t) && Remapped(a, b, t, nodes, nodes') && (forall p :: p in nodes ==> p in a.nodes)
    requires Lean(a, ForestOf(a, slots), nodes, {})
    ensures Lean(b, ForestOf(b, slots), nodes', {})
  {
    hide SameForest, Layout.WellShaped, Layout.IsRoot, ForestOf, Remapped, Needed;
    forall q | q in nodes' && q !in ForestOf(b, slots)
      ensures Needed(b, nodes', q)
    {
      RemapNeeds(a, b, t, slots, nodes, nodes', q);
    }
  }

  lemma {:induction false} RemapNeeds(a: Layout, b: Layout, t: map<nat, nat>, slots: seq<Hash>, nodes: map<nat, Cached>,
                                      nodes': map<nat, Cached>, q: nat)
    requires SameForest(a, b, t) && Remapped(a, b, t, nodes, nodes') && (forall p :: p in nodes ==> p in a.nodes)
    requires Lean(a, ForestOf(a, slots), nodes, {}) && q in nodes' && q !in ForestOf(b, slots)
    ensures Needed(b, nodes', q)
  {
    hide SameForest, Layout.WellShaped, Layout.IsRoot, ForestOf, Inside, Sees;
    var p := SameNodes(a, b, t, slots, q);
    assert p in nodes && Needed(a, nodes, p);
    UpSame(a, b, t, p);
    a.NonRootFacts(p);
    var r := Sibling(p);
    SameNode(a, b, t, r);
    if r >= a.m && a.Left(r) in nodes { RemapChild(a, b, t, nodes, nodes', r, a.Left(r)); }
    if r >= a.m && a.Right(r) in nodes { RemapChild(a, b, t, nodes, nodes', r, a.Right(r)); }
  }

  lemma {:induction false} RemapChild(a: Layout, b: Layout, t: map<nat, nat>, nodes: map<nat, Cached>,
                                      nodes': map<nat, Cached>, r: nat, x: nat)
    requires SameForest(a, b, t) && Remapped(a, b, t, nodes, nodes') && a.WellShaped() && b.WellShaped()
    requires r in t && r in a.nodes && x in nodes && x in a.nodes && r >= a.m && (x == a.Left(r) || x == a.Right(r))
    ensures t[r] >= b.m && (b.Left(t[r]) in nodes' || b.Right(t[r]) in nodes')
  {
    hide SameForest, Layout.WellShaped, Layout.IsRoot;
    a.NodeBound(r);
    ChildUp(a, r);
    HasParent(a, r, x);
    SameNode(a, b, t, x);
    UpSame(a, b, t, x);
    b.NonRootFacts(t[x]);
    b.NodeBound(b.Up(t[x]));
    IsChild(b, t[x]);
  }

  lemma {:induction false} HasParent(a: Layout, r: nat, x: nat)
    requires a.WellShaped() && r in a.nodes && x in a.nodes && a.Up(x) == r
    ensures !a.IsRoot(x)
  {
  }

  ghost predicate OnAWay(g: Layout, d: set<nat>, p: nat) {
    exists x :: x in d && p in Way(g, x)
  }

  /** The ways up from some positions. */
  ghost function Ways(g: Layout, d: set<nat>): set<nat> {
    set p: nat | p < 2 * g.m - 1 && OnAWay(g, d, p)
  }

  ghost predicate IsAround(g: Layout, ds: seq<nat>, i: nat, p: nat) {
    exists j :: i <= j < |ds| && p in Around(g, ds[j])
  }

  /** What is around the deletions still to come. */
  ghost function AroundFrom(g: Layout, ds: seq<nat>, i: nat): set<nat>
    requires i <= |ds|
  {
    set p: nat | p < 2 * g.m - 1 && IsAround(g, ds, i, p)
  }

  lemma {:induction false} AroundNext(g: Layout, ds: seq<nat>, i: nat)
    requires i < |ds|
    ensures AroundFrom(g, ds, i) == AroundFrom(g, ds, i + 1) + Around(g, ds[i])
  {
    hide Way, Above;
    forall p | p in AroundFrom(g, ds, i)
      ensures p in AroundFrom(g, ds, i + 1) + Around(g, ds[i])
    {
      var j :| i <= j < |ds| && p in Around(g, ds[j]);
      if j > i { assert i + 1 <= j < |ds|; }
    }
    AroundBound(g, ds[i]);
  }

  lemma AroundBound(g: Layout, x: nat)
    ensures forall p :: p in Around(g, x) ==> p < 2 * g.m - 1
  {
    hide Above, AtOrAbove;
  }

  /** What is around a later deletion is not below the parent of an earlier one. */
  lemma {:induction false} AroundClear(g: Layout, ds: seq<nat>, i: nat, p: nat)
    requires Separate(g, ds) && i < |ds| && !g.IsRoot(ds[i]) && p in AroundFrom(g, ds, i + 1)
    ensures !Above(g, g.Up(ds[i]), p)
  {
    hide Above, Layout.WellShaped, Layout.IsRoot;
    var j :| i + 1 <= j < |ds| && p in Around(g, ds[j]);
    var d, e, u := ds[i], ds[j], g.Up(ds[i]);
    AreasApart(g, ds, i, j, e);
    assert !AtOrAbove(g, u, e);
    if Above(g, u, p) {
      AboveParent(g, u, p);
      if AtOrAbove(g, p, e) {
        AboveFar(g, u, p, e);
      } else if AtOrAbove(g, Sibling(p), e) {
        g.NonRootFacts(d);
        AboveBounds(g, u, p);
        SiblingLow(g, p, u);
        SameParent(g, p);
        AboveTrans(g, u, Sibling(p));
        AboveFar(g, u, Sibling(p), e);
      } else {
        Nested(g, u, e, p);
        g.NonRootFacts(d);
        UpTwice(g, d, e);
      }
      assert false;
    }
  }

  lemma SiblingLow(g: Layout, p: nat, u: nat)
    requires p < u < 2 * g.m - 1
    ensures Sibling(p) < 2 * g.m - 1
  {
  }

  /** What is deleted is at or below one of the largest positions deleted. */
  lemma {:induction false} MaximalOver(g: Layout, d: set<nat>, x: nat) returns (e: nat)
    requires g.WellShaped() && x in g.nodes && Gone(g, d, x)
    ensures Maximal(g, d, e) && AtOrAbove(g, e, x)
    decreases 2 * g.m - x
  {
    hide Above, Layout.WellShaped, Layout.IsRoot, Gone;
    if g.IsRoot(x) || !Gone(g, d, g.Up(x)) {
      e := x;
    } else {
      g.NonRootFacts(x);
      e := MaximalOver(g, d, g.Up(x));
      AboveTrans(g, e, x);
    }
  }

  lemma {:induction false} WaysAround(g: Layout, d: set<nat>, ds: seq<nat>, p: nat)
    requires g.WellShaped() && Largest(g, d, ds) && (forall x :: x in d ==> x in g.nodes && Gone(g, d, x))
    requires p in Ways(g, d)
    ensures p in AroundFrom(g, ds, 0)
  {
    hide Above, Layout.WellShaped, Layout.IsRoot, Gone, Separate, Maximal;
    var x :| x in d && p in Way(g, x);
    var e := MaximalOver(g, d, x);
    assert e in ds;
    var j :| 0 <= j < |ds| && ds[j] == e;
    g.NodeBound(x);
    WayAround(g, x, e, p);
  }

  lemma {:induction false} WayAround(g: Layout, x: nat, e: nat, p: nat)
    requires p in Way(g, x) && AtOrAbove(g, e, x)
    ensures p in Around(g, e)
  {
    hide Above;
    if AtOrAbove(g, p, x) {
      if !AtOrAbove(g, e, p) { Nested(g, e, p, x); }
    } else if AtOrAbove(g, e, Sibling(p)) {
      if Above(g, e, Sibling(p)) {
        AboveParent(g, e, Sibling(p));
        SameParent(g, p);
        AboveTrans(g, e, p);
      }
    } else {
      Nested(g, e, Sibling(p), x);
    }
  }

  /** The cached leaves that are deleted are where the deletions are. */
  lemma {:induction false} PlacesIn(g: Layout, slots: seq<Hash>, d: set<nat>, hashes: set<Hash>,
                                    nodes: map<nat, Cached>, cached: map<Hash, nat>)
    requires Deleting(g, slots, d, hashes) && Keeps(g, ForestOf(g, slots), nodes) && Linked(nodes, cached)
    ensures Places(cached, hashes) <= d
  {
    hide ForestOf, Layout.WellShaped, GoodSlots, Inside, TopsOk, Provable, Aunts, Above, AllSolid, Erase, Deletable,
         Compact, ValidTargets;
    var f := ForestOf(g, slots);
    DeletingFacts(g, slots, d, hashes);
    SolidKeys(g, f);
    forall x | x in Places(cached, hashes)
      ensures x in d
    {
      var h :| h in hashes && h in cached && cached[h] == x;
      SeesAt(g, f, x);
      assert nodes[x] == Cached(h, true) && Sees(g, f, x).Leaf?;
    }
  }

  /** Without exceptions. */
  lemma NoWays(g: Layout, cached: map<Hash, nat>)
    ensures Ways(g, Places(cached, {})) == {}
  {
    assert Places(cached, {}) == {};
  }

  /** Before the deletions of a block all entries that are not needed are around them. */
  lemma {:induction false} LeanAround(g: Layout, slots: seq<Hash>, d: set<nat>, hashes: set<Hash>,
                                      nodes: map<nat, Cached>, cached: map<Hash, nat>, ds: seq<nat>)
    requires Deleting(g, slots, d, hashes) && Keeps(g, ForestOf(g, slots), nodes) && Linked(nodes, cached)
    requires Largest(g, d, ds) && Lean(g, ForestOf(g, slots), nodes, Ways(g, Places(cached, hashes)))
    ensures Lean(g, ForestOf(g, slots), nodes, AroundFrom(g, ds, 0))
  {
    hide ForestOf, Layout.WellShaped, GoodSlots, Keeps, Linked, Lean, Deleting, Largest, Ways, AroundFrom, Places, At,
         Gone, AllSolid, Deletable, Compact, ValidTargets, ForestOk;
    DeletingFacts(g, slots, d, hashes);
    DeletingShape(g, slots, d, hashes);
    PlacesIn(g, slots, d, hashes, nodes, cached);
    LeavesGone(g, ForestOf(g, slots), d);
    forall p | p in Ways(g, Places(cached, hashes))
      ensures p in AroundFrom(g, ds, 0)
    {
      MoreWays(g, Places(cached, hashes), d, p);
      WaysAround(g, d, ds, p);
    }
    LeanMore(g, ForestOf(g, slots), nodes, Ways(g, Places(cached, hashes)), AroundFrom(g, ds, 0));
  }

  lemma MoreWays(g: Layout, a: set<nat>, b: set<nat>, p: nat)
    requires a <= b && p in Ways(g, a)
    ensures p in Ways(g, b)
  {
    hide Way;
    var x :| x in a && p in Way(g, x);
    assert x in b;
  }

  lemma {:induction false} LeavesGone(g: Layout, f: Forest, d: set<nat>)
    requires AllSolid(g, f) && forall x :: x in d ==> At(g, f, x).Leaf?
    ensures forall x :: x in d ==> x in g.nodes && Gone(g, d, x)
  {
    hide Layout.WellShaped, At, AllSolid, ForestOk;
    SolidKeys(g, f);
    OkShape(g, f);
    forall x | x in d
      ensures x in g.nodes && Gone(g, d, x)
    {
      InsideIff(g, f, x);
      SeesAt(g, f, x);
      SeenInside(g, f, x);
      g.NodeBound(x);
    }
  }

  lemma {:induction false} SeenInside(g: Layout, trees: Forest, p: nat)
    requires !Sees(g, trees, p).Nil?
    ensures Inside(g, trees, p)
    decreases 2 * g.m - p
  {
    if p !in trees && p < 2 * g.m - 1 { SeenInside(g, trees, g.Up(p)); }
  }

  lemma {:induction false} UpARow(g: Layout, rows: nat, p: nat)
    requires g.m == Pow2(rows) && g.WellShaped() && p in g.nodes && !g.IsRoot(p) && Valid(rows, p)
    ensures g.Up(p) in g.nodes && Parent(rows, p) == g.Up(p) && Valid(rows, g.Up(p))
    ensures Row(rows, g.Up(p)) == Row(rows, p) + 1 && Row(rows, p) + 1 <= rows
  {
    hide Row, Layout.WellShaped, Layout.IsRoot, Pow2;
    g.NonRootFacts(p);
    g.NodeBound(g.Up(p));
    NotTop(g, p);
    RowStep(rows, p);
    RowBounds(rows, g.Up(p));
  }

  lemma {:induction false} LeanAtRoot(g: Layout, f: Forest, nodes: map<nat, Cached>, r: nat, but: set<nat>)
    requires ForestOk(g, f) && Keeps(g, f, nodes) && r in g.nodes && g.IsRoot(r) && Lean(g, f, nodes, but + Way(g, r))
    ensures Lean(g, f, nodes, but)
  {
    hide Lean, Way, Keeps, TopsOk, TrueNodes, Provable, Aunts;
    KeepsParts(g, f, nodes);
    WayOfTop(g, f, nodes, r, but);
  }

  lemma {:induction false} PruneLeanAt(g: Layout, rows: nat, f: Forest, nodes: map<nat, Cached>, x: nat, but: set<nat>)
    requires g.m == Pow2(rows) && ForestOk(g, f) && Keeps(g, f, nodes) && x in g.nodes && !g.IsRoot(x)
    requires Lean(g, f, nodes, but + Way(g, x))
    ensures Valid(rows, x) && Valid(rows, Sibling(x))
    ensures Lean(g, f, PrunePosition(rows, nodes, x), but + Way(g, g.Up(x)))
  {
    hide Lean, Way, Keeps, PrunePosition, Layout.WellShaped, Inside, Pow2;
    InsideIff(g, f, x);
    PruneLean(g, rows, f, nodes, x, but);
  }

  lemma {:induction false} RootStepLean(g: Layout, f: Forest, d: nat, start: map<nat, Cached>, nodes: map<nat, Cached>,
                                        but: set<nat>)
    requires AllSolid(g, f) && g.IsRoot(d) && Keeps(g, f, start) && Lean(g, f, start, but + Around(g, d))
    requires nodes == Forgotten(g, start, d)[d := Cached(Empty, false)]
    ensures Lean(g, Deleted(g, f, {d}), nodes, but)
  {
    hide Above, Layout.WellShaped, Keeps, Deleted, AllSolid, Layout.IsRoot, Lean, Around, TopsOk, TrueNodes, Provable,
         Aunts;
    SolidKeys(g, f);
    KeepsParts(g, f, start);
    DeletedRoot(g, f, d);
    if Above(g, d, d) { AboveBounds(g, d, d); }
    RootLean(g, f, Deleted(g, f, {d}), d, start, nodes, but);
  }

  lemma {:induction false} AllClear(g: Layout, ds: seq<nat>, i: nat)
    requires Separate(g, ds) && i < |ds|
    ensures !g.IsRoot(ds[i]) ==> forall p :: p in AroundFrom(g, ds, i + 1) ==> !Above(g, g.Up(ds[i]), p)
  {
    hide Separate, Layout.IsRoot, Above, AroundFrom;
    if !g.IsRoot(ds[i]) {
      forall p | p in AroundFrom(g, ds, i + 1)
        ensures !Above(g, g.Up(ds[i]), p)
      {
        AroundClear(g, ds, i, p);
      }
    }
  }

  lemma AroundNone(g: Layout, ds: seq<nat>)
    ensures AroundFrom(g, ds, |ds|) == {}
  {
  }

  /** The new leaf is put beside the forest. */
  lemma {:induction false} AddFirstLean(o: Layout, g: Layout, rows: nat, before: seq<Hash>, add: Cached,
                                        nodes: map<nat, Cached>, cached: map<Hash, nat>)
    requires Adding(o, g, rows, |before|) && add.hash != Empty && Keeps(o, ForestOf(o, before), nodes)
    requires Lean(o, ForestOf(o, before), nodes, {})
    ensures Lean(g, CarryTops(o, g, rows, before + [add.hash], |before|, 0), nodes[|before| := add], {})
  {
    hide ForestOf, Inside, CarryTops, Keeps, LayoutFor, Layout.WellShaped, AllSolid, ForestOk, Lean, TopsOk, TrueNodes,
         Provable, Aunts;
    var n, f := |before|, ForestOf(o, before);
    LayoutFits(o, rows, n);
    LayoutFits(g, rows, n + 1);
    CarryStart(o, g, rows, n);
    CarryBegins(o, g, rows, before, add.hash);
    SlotsSolid(o, before);
    SolidKeys(o, f);
    InsideIff(o, f, n);
    KeepsParts(o, f, nodes);
    OnlyInside(o, f, nodes, n);
    FirstLean(o, g, f, nodes, n, add, Leaf(add.hash));
  }

  lemma LastTops(o: Layout, g: Layout, rows: nat, slots: seq<Hash>, add: Cached, c: nat, h: nat, node: Cached,
                 nodes: map<nat, Cached>, cached: map<Hash, nat>)
    requires AtRow(o, g, rows, slots, add, c, h, node, nodes, cached) && Shr(|slots| - 1, h) % 2 == 0
    ensures CarryTops(o, g, rows, slots, c, h) == ForestOf(g, slots)
  {
    hide Keeps, Linked, Adding, CarryAt, CarryTops, ForestOf, Carrying, IsLeafHash;
    CarryEnds(o, g, rows, |slots| - 1, slots, c, h);
  }

  /** A touched position is above a target. */
  lemma {:induction false} TouchedWay(g: Layout, s: set<nat>, p: nat)
    requires g.WellShaped() && Touched(g, s, p)
    ensures exists x :: x in s && AtOrAbove(g, p, x)
    decreases p
  {
    hide Layout.WellShaped, Above;
    if p !in s {
      var c := if Touched(g, s, g.Left(p)) then g.Left(p) else g.Right(p);
      g.ChildFacts(p);
      TouchedWay(g, s, c);
      var x :| x in s && AtOrAbove(g, c, x);
      AboveOf(g, p, c, x);
      assert AtOrAbove(g, p, x);
    }
  }

  /** What a proof puts into the cache is on the ways up from its leaves. */
  lemma {:induction false} IngestLean(g: Layout, slots: seq<Hash>, s: set<nat>, nodes: map<nat, Cached>,
                                      nodes': map<nat, Cached>)
    requires Ingesting(g, slots, s, nodes, nodes') && Lean(g, ForestOf(g, slots), nodes, {})
    ensures Lean(g, ForestOf(g, slots), nodes', Ways(g, s))
  {
    hide ForestOf, Ingesting, Needed, Ways, Layout.WellShaped;
    forall p | p in nodes' && p !in ForestOf(g, slots) && p !in Ways(g, s)
      ensures Needed(g, nodes', p)
    {
      IngestNeeds(g, slots, s, nodes, nodes', p);
    }
  }

  lemma {:induction false} IngestNeeds(g: Layout, slots: seq<Hash>, s: set<nat>, nodes: map<nat, Cached>,
                                       nodes': map<nat, Cached>, p: nat)
    requires Ingesting(g, slots, s, nodes, nodes') && Lean(g, ForestOf(g, slots), nodes, {})
    requires p in nodes' && p !in ForestOf(g, slots) && p !in Ways(g, s)
    ensures Needed(g, nodes', p)
  {
    hide ForestOf, Layout.WellShaped, Keeps, Above, Touched, At, Merkle, Layout.IsRoot;
    NotTouched(g, s, p);
    assert p in nodes && Needed(g, nodes, p);
    if Remember(nodes, p) { StaysRemembered(g, slots, s, nodes, nodes', p); }
    if Remember(nodes, Sibling(p)) { StaysRemembered(g, slots, s, nodes, nodes', Sibling(p)); }
  }

  lemma {:induction false} NotTouched(g: Layout, s: set<nat>, p: nat)
    requires g.WellShaped() && p !in Ways(g, s)
    ensures !Touched(g, s, p) && !IsProofPos(g, s, p)
  {
    hide Layout.WellShaped, Above, Touched, Layout.IsRoot;
    if Touched(g, s, p) {
      TouchedWay(g, s, p);
      TouchedLow(g, s, p);
    }
    if IsProofPos(g, s, p) {
      TouchedWay(g, s, Sibling(p));
      g.NodeBound(p);
    }
  }

  lemma TouchedLow(g: Layout, s: set<nat>, p: nat)
    requires Touched(g, s, p)
    ensures p < 2 * g.m - 1
  {
  }

  lemma {:induction false} StaysRemembered(g: Layout, slots: seq<Hash>, s: set<nat>, nodes: map<nat, Cached>,
                                           nodes': map<nat, Cached>, p: nat)
    requires Ingesting(g, slots, s, nodes, nodes') && Remember(nodes, p)
    ensures Remember(nodes', p)
  {
    hide ForestOf, Layout.WellShaped, TopsOk, Provable, Aunts, Above, Touched, At, Merkle, Layout.IsRoot, Inside,
         AllSolid, ForestOk;
    var f := ForestOf(g, slots);
    SlotsSolid(g, slots);
    SolidKeys(g, f);
    SeesAt(g, f, p);
    if Touched(g, s, p) && p !in s {
      TouchedAt(g, f, s, p);
      TouchedNode(g, s, p);
    }
  }

  lemma WasIngested(g: Layout, slots: seq<Hash>, s: set<nat>, nodes: map<nat, Cached>, nodes': map<nat, Cached>)
    requires Ingesting(g, slots, s, nodes, nodes')
    ensures Ingested(g, ForestOf(g, slots), s, nodes, nodes')
  {
    hide Ingested, ForestOf, Keeps;
  }
}
