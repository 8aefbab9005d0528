/** What exactly is in a cache, and that there is only one way to keep some leaves of some slots. */
module MapContents {
  import opened Hashes
  import opened Positions
  import opened Layouts
  import opened Forests
  import opened Slots
  import opened Uniqueness
  import opened MapTheory
  import opened MapForest
  import opened MapMoves
  import opened MapDeletions
  import opened Sequential
  import opened OneDeletion
  import opened Pollards
  import opened MapLean

  /** A position that a cache of these leaves must have: a root, a cached leaf, or one beside the way up from a cached
      leaf. */
  ghost predicate Wanted(g: Layout, cached: map<Hash, nat>, p: nat) {
    p in g.nodes && (g.IsRoot(p) || exists h :: h in cached && (cached[h] == p || AtOrAbove(g, Sibling(p), cached[h])))
  }

  /** The cache is right, the marks are those of the cached leaves, and below the roots every entry is needed. */
  ghost predicate Sound(g: Layout, slots: seq<Hash>, nodes: map<nat, Cached>, cached: map<Hash, nat>) {
    var f := ForestOf(g, slots);
    Keeps(g, f, nodes) && Linked(nodes, cached) && Flags(nodes, cached) && Lean(g, f, nodes, {})
  }

  lemma RememberedAre(nodes: map<nat, Cached>, cached: map<Hash, nat>)
    requires Linked(nodes, cached) && Flags(nodes, cached)
    ensures Remembered(nodes) == cached.Values
  {
    hide IsLeafHash;
    forall p
      ensures p in Remembered(nodes) <==> p in cached.Values
    {
      if p in Remembered(nodes) {
        var h := nodes[p].hash;
        assert h in cached && cached[h] == p;
      }
      if p in cached.Values {
        var h :| h in cached && cached[h] == p;
        assert nodes[cached[h]].remember;
      }
    }
  }

  /** The cache has an entry for a position exactly if the position is wanted. */
  lemma {:induction false} StoredIffWanted(g: Layout, rows: nat, slots: seq<Hash>, nodes: map<nat, Cached>,
                                           cached: map<Hash, nat>, p: nat)
    requires LayoutFor(g, rows, |slots|) && Sound(g, slots, nodes, cached)
    ensures p in nodes <==> Wanted(g, cached, p)
  {
    hide LayoutFor, ForestOf, TopsOk, Provable, Aunts, Inside, Sees, Merkle, Layout.WellShaped, AllSolid, ForestOk,
         Linked, Flags, Lean, AtOrAbove, IsLeafHash;
    var f := ForestOf(g, slots);
    LayoutFits(g, rows, |slots|);
    SlotsSolid(g, slots);
    SolidKeys(g, f);
    InsideIff(g, f, p);
    RememberedAre(nodes, cached);
    if p in g.nodes && !g.IsRoot(p) {
      StoresExactly(g, f, nodes, p);
      WantedIff(g, cached, p);
    }
  }

  lemma WantedIff(g: Layout, cached: map<Hash, nat>, p: nat)
    requires p in g.nodes && !g.IsRoot(p)
    ensures Wanted(g, cached, p) <==>
              p in cached.Values || exists c :: c in cached.Values && AtOrAbove(g, Sibling(p), c)
  {
    hide AtOrAbove, Layout.IsRoot;
    if p in cached.Values {
      var h :| h in cached && cached[h] == p;
    }
    if c :| c in cached.Values && AtOrAbove(g, Sibling(p), c) {
      var h :| h in cached && cached[h] == c;
    }
    if h :| h in cached && (cached[h] == p || AtOrAbove(g, Sibling(p), cached[h])) {
      assert cached[h] in cached.Values;
    }
  }

  /** A cached leaf is at the one place that has it. */
  lemma {:induction false} SamePlaces(g: Layout, rows: nat, slots: seq<Hash>, nodes: map<nat, Cached>,
                                      cached: map<Hash, nat>, nodes': map<nat, Cached>, cached': map<Hash, nat>)
    requires LayoutFor(g, rows, |slots|) && GoodSlots(slots)
    requires Keeps(g, ForestOf(g, slots), nodes) && Linked(nodes, cached)
    requires Keeps(g, ForestOf(g, slots), nodes') && Linked(nodes', cached')
    requires cached.Keys == cached'.Keys
    ensures cached == cached'
  {
    hide LayoutFor, ForestOf, TopsOk, TrueNodes, Provable, Aunts, Layout.WellShaped, AllSolid, ForestOk, Linked, At,
         GoodSlots;
    var f := ForestOf(g, slots);
    LayoutFits(g, rows, |slots|);
    SlotsSolid(g, slots);
    SolidKeys(g, f);
    DistinctForest(g, slots);
    forall h | h in cached
      ensures cached[h] == cached'[h]
    {
      CachedLeaf(g, f, nodes, cached, h);
      CachedLeaf(g, f, nodes', cached', h);
    }
  }

  /** Two caches of the same leaves of the same slots, in as many rows, are the same. */
  lemma {:induction false} OneContent(g: Layout, rows: nat, slots: seq<Hash>, nodes: map<nat, Cached>,
                                      cached: map<Hash, nat>, nodes': map<nat, Cached>, cached': map<Hash, nat>)
    requires LayoutFor(g, rows, |slots|) && GoodSlots(slots) && cached.Keys == cached'.Keys
    requires Sound(g, slots, nodes, cached) && Sound(g, slots, nodes', cached')
    ensures cached == cached' && nodes == nodes'
  {
    hide LayoutFor, ForestOf, Layout.WellShaped, Linked, Flags, Lean, GoodSlots, TopsOk, Provable, Aunts, Inside, Sees,
         Merkle, Wanted;
    SamePlaces(g, rows, slots, nodes, cached, nodes', cached');
    RememberedAre(nodes, cached);
    RememberedAre(nodes', cached');
    forall p
      ensures p in nodes <==> p in nodes'
      ensures p in nodes ==> nodes[p] == nodes'[p]
    {
      StoredIffWanted(g, rows, slots, nodes, cached, p);
      StoredIffWanted(g, rows, slots, nodes', cached', p);
      assert p in Remembered(nodes) <==> p in Remembered(nodes');
    }
  }
}
