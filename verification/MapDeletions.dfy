/** A cache and the deletions of a block, one after another. */
module MapDeletions {
  import opened Hashes
  import opened Positions
  import opened Geometry
  import opened Layouts
  import opened Shape
  import opened Entries
  import opened Forests
  import opened Honest
  import opened Deletion
  import opened Sequential
  import opened Slots
  import opened Uniqueness
  import opened OneDeletion
  import opened Pollards
  import opened Translation
  import opened MapTheory
  import opened MapLift
  import opened MapForest
  import opened MapMoves
  import opened MapRemove

  /** What is at or below a later deletion is not where an earlier one changes the cache. */
  lemma {:induction false} AreasApart(g: Layout, ds: seq<nat>, i: nat, j: nat, c: nat)
    requires Separate(g, ds) && i < j < |ds| && AtOrAbove(g, ds[j], c)
    ensures !Area(g, ds[i], c)
  {
    hide Above, Layout.WellShaped, Layout.IsRoot;
    var d, e := ds[i], ds[j];
    assert d < e && !Above(g, d, e) && !Above(g, e, d) && e in ds;
    if g.IsRoot(d) {
      if AtOrAbove(g, d, c) { Chain(g, d, e, c); }
    } else if AtOrAbove(g, g.Up(d), c) {
      var rest := {e};
      assert LaterThan(g, d, rest);
      NoneAtParent(g, d, rest, e);
      if AtOrAbove(g, g.Up(d), e) { } else { Nested(g, g.Up(d), e, c); }
      UpTwice(g, d, e);
    }
  }

  lemma {:induction false} UpTwice(g: Layout, d: nat, e: nat)
    requires g.WellShaped() && d in g.nodes && AtOrAbove(g, e, g.Up(d))
    ensures Above(g, e, d)
  {
    hide Above, Layout.WellShaped;
    g.NodeBound(d);
    AboveTrans(g, e, d);
  }

  lemma {:induction false} StillWatched(g: Layout, ds: seq<nat>, i: nat, j: nat, nodes: map<nat, Cached>,
                                        nodes': map<nat, Cached>)
    requires Separate(g, ds) && i < j < |ds| && Watched(g, nodes, ds[j]) && RememberedElsewhere(g, ds[i], nodes, nodes')
    ensures Watched(g, nodes', ds[j])
  {
    hide Area, Separate, AtOrAbove;
    var c :| c in Remembered(nodes) && AtOrAbove(g, ds[j], c);
    AreasApart(g, ds, i, j, c);
    assert Remember(nodes', c);
  }

  lemma {:induction false} StillUncached(g: Layout, ds: seq<nat>, i: nat, j: nat, nodes: map<nat, Cached>,
                                         nodes': map<nat, Cached>, cached: map<Hash, nat>, cached': map<Hash, nat>)
    requires Separate(g, ds) && i < j < |ds| && Uncached(g, cached, ds[j]) &&
             RememberedElsewhere(g, ds[i], nodes, nodes')
    requires Linked(nodes, cached) && Linked(nodes', cached') && cached'.Keys == cached.Keys
    ensures Uncached(g, cached', ds[j])
  {
    hide Area, Separate, AtOrAbove, IsLeafHash;
    forall h | h in cached'
      ensures !AtOrAbove(g, ds[j], cached'[h])
    {
      var p := cached'[h];
      if AtOrAbove(g, ds[j], p) {
        AreasApart(g, ds, i, j, p);
      }
    }
  }

  /** Below a position at which everything is deleted there is a deleted leaf. */
  lemma {:induction false} GoneLeaf(g: Layout, d: set<nat>, a: nat) returns (x: nat)
    requires g.WellShaped() && Gone(g, d, a)
    ensures x in d && AtOrAbove(g, a, x)
    decreases a
  {
    if a in d {
      x := a;
    } else {
      g.ChildFacts(a);
      x := GoneLeaf(g, d, g.Left(a));
      AboveOf(g, a, g.Left(a), x);
    }
  }

  /** All leaves there are deleted. */
  lemma {:induction false} GoneLeaves(g: Layout, f: Forest, d: set<nat>, a: nat, p: nat)
    requires ForestOk(g, f) && (forall x :: x in d ==> At(g, f, x).Leaf?) && Gone(g, d, a) && AtOrAbove(g, a, p) &&
             At(g, f, p).Leaf?
    ensures p in d
    decreases a
  {
    hide At, Layout.WellShaped, Above;
    OkShape(g, f);
    if a in d {
      if a != p { NodeAbove(g, f, p, a); }
    } else {
      g.ChildFacts(a);
      if a == p {
        var x := GoneLeaf(g, d, a);
        NodeAbove(g, f, x, a);
      } else {
        BelowChild(g, a, p);
        GoneLeaves(g, f, d, if AtOrAbove(g, g.Left(a), p) then g.Left(a) else g.Right(a), p);
      }
    }
  }

  /** The deleted leaves, in any number of rows. */
  lemma {:induction false} LeafPositionsSame(a: Layout, b: Layout, t: map<nat, nat>, slots: seq<Hash>, d: set<nat>,
                                             hashes: set<Hash>)
    requires SameForest(a, b, t) && LeafPositions(a, ForestOf(a, slots), d, hashes)
    ensures LeafPositions(b, ForestOf(b, slots), Image(t, d), hashes)
  {
    hide SameForest, At, ForestOf;
    forall x | x in Image(t, d)
      ensures At(b, ForestOf(b, slots), x).Leaf? && At(b, ForestOf(b, slots), x).hash in hashes
    {
      var p :| p in d && p in t && t[p] == x;
      SameShapes(a, b, t);
      AtSame(a, b, t, slots, p);
    }
    forall x: nat | At(b, ForestOf(b, slots), x).Leaf? && At(b, ForestOf(b, slots), x).hash in hashes
      ensures x in Image(t, d)
    {
      if x !in b.nodes { AtNowhere(b, ForestOf(b, slots), x); }
      var p := Untranslate(a, b, t, x);
      AtSame(a, b, t, slots, p);
    }
  }

  /** A list of positions, translated. */
  ghost predicate TranslatedList(t: map<nat, nat>, list: seq<nat>, r: seq<nat>) {
    |r| == |list| && forall i :: 0 <= i < |list| ==> list[i] in t && r[i] == t[list[i]]
  }

  lemma {:induction false} TranslatedFacts(a: Layout, b: Layout, t: map<nat, nat>, list: seq<nat>, r: seq<nat>)
    requires SameForest(a, b, t) && Ascending(list) && TranslatedList(t, list, r)
    ensures Ascending(r) && Elems(r) == Image(t, Elems(list))
  {
    hide Corresponds, Layout.WellShaped;
    forall x | x in Image(t, Elems(list))
      ensures x in r
    {
      var p :| p in list && p in t && t[p] == x;
      var i :| 0 <= i < |list| && list[i] == p;
      assert r[i] == x;
    }
    forall x | x in r
      ensures x in Image(t, Elems(list))
    {
      var i :| 0 <= i < |r| && r[i] == x;
      assert list[i] in Elems(list);
    }
  }

  /** The deletions of a block, in a layout. */
  ghost predicate Deleting(g: Layout, slots: seq<Hash>, d: set<nat>, hashes: set<Hash>) {
    g.WellShaped() && GoodSlots(slots) && LeafPositions(g, ForestOf(g, slots), d, hashes)
  }

  lemma {:induction false} DeletingFacts(g: Layout, slots: seq<Hash>, d: set<nat>, hashes: set<Hash>)
    requires Deleting(g, slots, d, hashes)
    ensures AllSolid(g, ForestOf(g, slots)) && ValidTargets(g, d) && Compact(g, ForestOf(g, slots)) &&
            Deletable(g, ForestOf(g, slots), d)
    ensures ForestOf(g, slots).Keys == set r | r in g.nodes && g.IsRoot(r)
    ensures Deleted(g, ForestOf(g, slots), d) == ForestOf(g, Erase(slots, hashes))
    ensures forall x :: x in d ==> At(g, ForestOf(g, slots), x).Leaf? && At(g, ForestOf(g, slots), x).hash in hashes
  {
    hide ForestOf, AllSolid, Deleted, Erase, At, Deletable, Compact, Touched, Layout.WellShaped, GoodSlots;
    SlotsSolid(g, slots);
    DeletedSlots(g, slots, d, hashes);
    CompactOk(g, ForestOf(g, slots));
    LeavesValid(g, ForestOf(g, slots), d);
  }

  /** A cached leaf is the leaf with its hash. */
  lemma {:induction false} CachedLeaf(g: Layout, f: Forest, nodes: map<nat, Cached>, cached: map<Hash, nat>, h: Hash)
    requires ForestOk(g, f) && TrueNodes(g, f, nodes) && Linked(nodes, cached) && h in cached
    ensures At(g, f, cached[h]) == Leaf(h)
  {
    hide At, Sees, Inside, ForestOk, IsLeafHash;
    var p := cached[h];
    SeesAt(g, f, p);
    assert nodes[p].hash == h;
    assert Merkle(Sees(g, f, p)) == h;
  }

  /** Leaves that are cached are remembered at their positions. */
  lemma {:induction false} CachedRemembered(g: Layout, slots: seq<Hash>, nodes: map<nat, Cached>,
                                            cached: map<Hash, nat>, x: nat)
    requires g.WellShaped() && GoodSlots(slots) && Keeps(g, ForestOf(g, slots), nodes) && Linked(nodes, cached)
    requires At(g, ForestOf(g, slots), x).Leaf? && At(g, ForestOf(g, slots), x).hash in cached
    ensures x in Remembered(nodes) && cached[At(g, ForestOf(g, slots), x).hash] == x
  {
    hide At, ForestOf, Layout.WellShaped, GoodSlots, TopsOk, Provable, Aunts, TrueNodes;
    var f := ForestOf(g, slots);
    var h := At(g, f, x).hash;
    ForestOfCompact(g, slots);
    CompactOk(g, f);
    CachedLeaf(g, f, nodes, cached, h);
    OnePlace(g, slots, x, cached[h]);
  }

  /** At the start every position to be deleted is watched, and no leaf there is cached any more. */
  lemma {:induction false} FirstFacts(g: Layout, slots: seq<Hash>, d: set<nat>, hashes: set<Hash>,
                                      nodes: map<nat, Cached>, cached: map<Hash, nat>, e: nat)
    requires Deleting(g, slots, d, hashes) && Keeps(g, ForestOf(g, slots), nodes) && Linked(nodes, cached)
    requires hashes <= cached.Keys && Gone(g, d, e)
    ensures Watched(g, nodes, e) && Uncached(g, cached - hashes, e)
  {
    hide At, ForestOf, Layout.WellShaped, GoodSlots, Keeps, Above, Gone, Erase;
    DeletingFacts(g, slots, d, hashes);
    KeepsParts(g, ForestOf(g, slots), nodes);
    hide Deleting;
    DeletingShape(g, slots, d, hashes);
    var f := ForestOf(g, slots);
    CompactOk(g, f);
    var x := GoneLeaf(g, d, e);
    CachedRemembered(g, slots, nodes, cached, x);
    forall h | h in cached - hashes
      ensures !AtOrAbove(g, e, cached[h])
    {
      CachedLeaf(g, f, nodes, cached, h);
      if AtOrAbove(g, e, cached[h]) { GoneLeaves(g, f, d, e, cached[h]); }
    }
  }

  lemma DeletingShape(g: Layout, slots: seq<Hash>, d: set<nat>, hashes: set<Hash>)
    requires Deleting(g, slots, d, hashes)
    ensures g.WellShaped() && GoodSlots(slots)
  {
    hide Layout.WellShaped, GoodSlots, LeafPositions;
  }

  lemma {:induction false} LinkedUncached(nodes: map<nat, Cached>, cached: map<Hash, nat>, hashes: set<Hash>)
    requires Linked(nodes, cached)
    ensures Linked(nodes, cached - hashes)
  {
    hide IsLeafHash;
  }

  /** Every position in another number of rows. */
  method TranslatePositions(positions: seq<nat>, n: nat, from: nat, to: nat, ghost a: Layout, ghost b: Layout)
    returns (r: seq<nat>)
    requires LayoutFor(a, from, n) && LayoutFor(b, to, n) && forall p :: p in positions ==> p in a.nodes
    ensures TranslatedList(Translated(a, from, to), positions, r)
  {
    hide LayoutFor, Translated, Row;
    TranslatedKeys(a, from, to);
    r := [];
    for i := 0 to |positions|
      invariant |r| == i && forall j :: 0 <= j < i ==> r[j] == Translated(a, from, to)[positions[j]]
    {
      TranslatedAt(a, b, n, from, to, positions[i]);
      r := r + [TranslatePos(positions[i], from, to)];
    }
  }

  /** In the same number of rows nothing changes. */
  lemma {:induction false} TranslatedSame(a: Layout, b: Layout, n: nat, from: nat, to: nat, positions: seq<nat>)
    requires LayoutFor(a, from, n) && LayoutFor(b, to, n) && from == to && forall p :: p in positions ==> p in a.nodes
    ensures TranslatedList(Translated(a, from, to), positions, positions)
  {
    hide LayoutFor, Translated, Row;
    forall i | 0 <= i < |positions|
      ensures positions[i] in Translated(a, from, to) && Translated(a, from, to)[positions[i]] == positions[i]
    {
      RemapPosition(a, n, from, to, positions[i]);
    }
  }
}
