/** The entries of a cache that are marked to be remembered. */
module MapFlags {
  import opened Hashes
  import opened Positions
  import opened Geometry
  import opened Layouts
  import opened Forests
  import opened Deletion
  import opened Sequential
  import opened Uniqueness
  import opened OneDeletion
  import opened Slots
  import opened Shape
  import opened Translation
  import opened MapTheory
  import opened MapLift
  import opened MapMoves
  import opened MapLevels
  import opened MapSteps
  import opened MapRemove
  import opened MapSupport
  import opened MapDeletions
  import opened MapRemap
  import opened MapProofs
  import opened MapLean
  import opened MapLeanSteps
  import opened MapGrow
  import opened MapCarry
  import opened DeTwin
  import opened Relocation

  /** A marked entry after a deletion was there before, and not at or below the deletion. */
  ghost predicate FlagFrom(g: Layout, d: nat, nodes: map<nat, Cached>, nodes': map<nat, Cached>, q: nat, c: nat)
    requires q in nodes'
  {
    c in nodes && nodes[c] == nodes'[q] && !AtOrAbove(g, d, c) && (c != q ==> Area(g, d, c))
  }

  ghost predicate FlagsFrom(g: Layout, d: nat, nodes: map<nat, Cached>, nodes': map<nat, Cached>) {
    forall q :: q in nodes' && nodes'[q].remember ==> exists c: nat :: FlagFrom(g, d, nodes, nodes', q, c)
  }

  lemma {:induction false} LiftFlags(g: Layout, rows: nat, d: nat, trees: Forest, nodes: map<nat, Cached>,
                                     moved: map<nat, Cached>, nodes': map<nat, Cached>)
    requires GivesWay(g, rows, d) && NodesLift(g, d, nodes, moved) && Rehashed(g, trees, g.Up(d), moved, nodes')
    requires forall p: nat :: !Affected(g, d, p) && p in nodes && p in moved ==> moved[p] == nodes[p]
    ensures FlagsFrom(g, d, nodes, nodes')
  {
    hide Above, Layout.WellShaped, Layout.IsRoot, Sees, Merkle, Shift, Area;
    forall q | q in nodes' && nodes'[q].remember
      ensures exists c: nat :: FlagFrom(g, d, nodes, nodes', q, c)
    {
      var c := FlagOrigin(g, rows, d, trees, nodes, moved, nodes', q);
    }
  }

  lemma {:induction false} FlagOrigin(g: Layout, rows: nat, d: nat, trees: Forest, nodes: map<nat, Cached>,
                                      moved: map<nat, Cached>, nodes': map<nat, Cached>, q: nat)
    returns (c: nat)
    requires GivesWay(g, rows, d) && NodesLift(g, d, nodes, moved) && Rehashed(g, trees, g.Up(d), moved, nodes')
    requires forall p: nat :: !Affected(g, d, p) && p in nodes && p in moved ==> moved[p] == nodes[p]
    requires q in nodes' && nodes'[q].remember
    ensures FlagFrom(g, d, nodes, nodes', q, c)
  {
    hide Above, Layout.WellShaped, Layout.IsRoot, Sees, Merkle, Shift;
    g.NonRootFacts(d);
    if Affected(g, d, q) {
      c := CameFrom(g, rows, d, q);
      MoveFacts(g, rows, d, c);
      AffectedIff(g, rows, d, c);
    } else {
      c := q;
      AffectedIff(g, rows, d, q);
    }
  }

  lemma {:induction false} RootFlags(g: Layout, d: nat, nodes: map<nat, Cached>, nodes': map<nat, Cached>)
    requires nodes' == Forgotten(g, nodes, d)[d := Cached(Empty, false)]
    ensures FlagsFrom(g, d, nodes, nodes')
  {
    hide Above, Area;
    forall q | q in nodes' && nodes'[q].remember
      ensures exists c: nat :: FlagFrom(g, d, nodes, nodes', q, c)
    {
      assert FlagFrom(g, d, nodes, nodes', q, q);
    }
  }

  lemma {:induction false} PrunedFlags(g: Layout, d: nat, nodes: map<nat, Cached>, nodes': map<nat, Cached>,
                                       after: map<nat, Cached>)
    requires FlagsFrom(g, d, nodes, nodes') && Pruning(nodes', after)
    ensures FlagsFrom(g, d, nodes, after)
  {
    hide Above, Area, AtOrAbove;
    forall q | q in after && after[q].remember
      ensures exists c: nat :: FlagFrom(g, d, nodes, after, q, c)
    {
      var c: nat :| FlagFrom(g, d, nodes, nodes', q, c);
      assert FlagFrom(g, d, nodes, after, q, c);
    }
  }

  /** The marked entries are cached leaves, but for those at or below the deletions to come. */
  ghost predicate FlagsBut(g: Layout, nodes: map<nat, Cached>, cached: map<Hash, nat>, ds: seq<nat>, i: nat) {
    forall p :: p in nodes && nodes[p].remember ==> nodes[p].hash in cached || BelowFrom(g, ds, i, p)
  }

  ghost predicate BelowFrom(g: Layout, ds: seq<nat>, i: nat, p: nat) {
    exists j :: i <= j < |ds| && AtOrAbove(g, ds[j], p)
  }

  lemma {:induction false} FlagsNext(g: Layout, ds: seq<nat>, i: nat, nodes: map<nat, Cached>, nodes': map<nat, Cached>,
                                     cached: map<Hash, nat>, cached': map<Hash, nat>)
    requires Separate(g, ds) && i < |ds| && FlagsFrom(g, ds[i], nodes, nodes') && cached'.Keys == cached.Keys
    requires FlagsBut(g, nodes, cached, ds, i)
    ensures FlagsBut(g, nodes', cached', ds, i + 1)
  {
    hide Above, Area, AtOrAbove, Separate;
    forall q | q in nodes' && nodes'[q].remember
      ensures nodes'[q].hash in cached' || BelowFrom(g, ds, i + 1, q)
    {
      var c: nat :| FlagFrom(g, ds[i], nodes, nodes', q, c);
      if nodes[c].hash !in cached {
        var j :| i <= j < |ds| && AtOrAbove(g, ds[j], c);
        assert j > i;
        AreasApart(g, ds, i, j, c);
        assert c == q;
      }
    }
  }

  lemma FlagsDone(g: Layout, nodes: map<nat, Cached>, cached: map<Hash, nat>, ds: seq<nat>)
    requires FlagsBut(g, nodes, cached, ds, |ds|)
    ensures Flags(nodes, cached)
  {
  }

  /** Before the deletions. */
  lemma {:induction false} FlagsFirst(g: Layout, slots: seq<Hash>, d: set<nat>, hashes: set<Hash>,
                                      nodes: map<nat, Cached>, cached: map<Hash, nat>, ds: seq<nat>)
    requires Deleting(g, slots, d, hashes) && Keeps(g, ForestOf(g, slots), nodes) && Linked(nodes, cached)
    requires Flags(nodes, cached) && Largest(g, d, ds)
    ensures FlagsBut(g, nodes, cached - hashes, ds, 0)
  {
    hide ForestOf, Layout.WellShaped, GoodSlots, Keeps, Linked, Deleting, Largest, At, Gone, AllSolid, Deletable,
         ForestOk;
    DeletingFacts(g, slots, d, hashes);
    DeletingShape(g, slots, d, hashes);
    PlacesIn(g, slots, d, hashes, nodes, cached);
    LeavesGone(g, ForestOf(g, slots), d);
    forall p | p in nodes && nodes[p].remember && nodes[p].hash in hashes
      ensures BelowFrom(g, ds, 0, p)
    {
      LinkedPlace(nodes, cached, p, hashes);
      var e := MaximalOver(g, d, p);
      LargestHas(g, d, ds, e);
      var j :| 0 <= j < |ds| && ds[j] == e;
    }
  }

  lemma LinkedPlace(nodes: map<nat, Cached>, cached: map<Hash, nat>, p: nat, hashes: set<Hash>)
    requires Linked(nodes, cached) && Flags(nodes, cached) && p in nodes && nodes[p].remember && nodes[p].hash in hashes
    ensures p in Places(cached, hashes)
  {
    hide IsLeafHash;
  }

  lemma LargestHas(g: Layout, d: set<nat>, ds: seq<nat>, e: nat)
    requires Largest(g, d, ds) && Maximal(g, d, e)
    ensures e in ds
  {
    hide Separate, Maximal;
  }

  lemma MovedFlags(g: Layout, s: nat, nodes: map<nat, Cached>, moved: map<nat, Cached>, done: set<nat>,
                   cached: map<Hash, nat>)
    requires MovedSet(g, s, nodes, moved, done) && Flags(nodes, cached)
    ensures Flags(moved, cached)
  {
    hide Shift;
  }

  lemma PruneFlags(rows: nat, nodes: map<nat, Cached>, pos: nat, cached: map<Hash, nat>)
    requires Valid(rows, pos) && Valid(rows, Sibling(pos)) && Flags(nodes, cached)
    ensures Flags(PrunePosition(rows, nodes, pos), cached)
  {
    hide NiecesPresent, Row;
  }

  lemma {:induction false} RemapFlags(a: Layout, b: Layout, t: map<nat, nat>, nodes: map<nat, Cached>,
                                      nodes': map<nat, Cached>, cached: map<Hash, nat>, cached': map<Hash, nat>)
    requires SameForest(a, b, t) && Remapped(a, b, t, nodes, nodes') && Flags(nodes, cached) &&
             cached'.Keys == cached.Keys
    ensures Flags(nodes', cached')
  {
    hide SameForest;
    forall q | q in nodes' && nodes'[q].remember
      ensures nodes'[q].hash in cached'
    {
      var p := Untranslate(a, b, t, q);
    }
  }

  lemma {:induction false} IngestFlags(g: Layout, slots: seq<Hash>, hashes: set<Hash>, nodes: map<nat, Cached>,
                                       nodes': map<nat, Cached>, cached: map<Hash, nat>, cached': map<Hash, nat>)
    requires Ingesting(g, slots, Places(cached', hashes), nodes, nodes') && Linked(nodes', cached')
    requires Flags(nodes, cached) && cached.Keys <= cached'.Keys
    ensures Flags(nodes', cached')
  {
    hide ForestOf, Keeps, Layout.WellShaped, At, Merkle, Touched, IsLeafHash, IsProofPos;
    forall p | p in nodes' && nodes'[p].remember
      ensures nodes'[p].hash in cached'
    {
      if p in Places(cached', hashes) {
        var h :| h in hashes && h in cached' && cached'[h] == p;
      }
    }
  }

  lemma FirstFlag(nodes: map<nat, Cached>, cached: map<Hash, nat>, n: nat, add: Cached)
    requires Flags(nodes, cached)
    ensures Flags(nodes[n := add], if add.remember then cached[add.hash := n] else cached)
  {
  }

  lemma InnerFlag(nodes: map<nat, Cached>, cached: map<Hash, nat>, u: nat, e: Cached)
    requires Flags(nodes, cached) && !e.remember
    ensures Flags(nodes[u := e], cached)
  {
  }

  lemma EmptyFlags(g: Layout, s: nat, nodes: map<nat, Cached>, moved: map<nat, Cached>, c: nat, cached: map<Hash, nat>,
                   cached': map<Hash, nat>)
    requires Flags(nodes, cached) && MovedSet(g, s, nodes - {c}, moved, AllUnder(g, s)) && cached'.Keys == cached.Keys
    requires c in nodes
    ensures Flags(moved[g.Up(c) := nodes[c]], cached')
  {
    hide MovedSet, AllUnder;
    MovedFlags(g, s, nodes - {c}, moved, AllUnder(g, s), cached);
  }

  /** The state of the carry on a row, with the marks right, and with no entries that are not needed if there were
      none before. */
  ghost predicate OnRow(o: Layout, g: Layout, rows: nat, slots: seq<Hash>, add: Cached, c: nat, h: nat, node: Cached,
                        nodes: map<nat, Cached>, cached: map<Hash, nat>, tidy: bool) {
    && AtRow(o, g, rows, slots, add, c, h, node, nodes, cached) && Flags(nodes, cached)
    && (tidy ==> Lean(g, CarryTops(o, g, rows, slots, c, h), nodes, {}))
  }

  lemma RowParts(o: Layout, g: Layout, rows: nat, slots: seq<Hash>, add: Cached, c: nat, h: nat, node: Cached,
                 nodes: map<nat, Cached>, cached: map<Hash, nat>, tidy: bool)
    requires OnRow(o, g, rows, slots, add, c, h, node, nodes, cached, tidy)
    ensures AtRow(o, g, rows, slots, add, c, h, node, nodes, cached) && Flags(nodes, cached)
    ensures tidy ==> Lean(g, CarryTops(o, g, rows, slots, c, h), nodes, {})
    ensures c in nodes && nodes[c] == node
  {
    hide Flags, Lean, CarryTops, Adding, CarryAt, Keeps, Linked, Carrying, IsLeafHash;
  }

  lemma {:induction false} FirstRow(o: Layout, g: Layout, rows: nat, before: seq<Hash>, add: Cached,
                                    nodes: map<nat, Cached>, cached: map<Hash, nat>, tidy: bool)
    requires Adding(o, g, rows, |before|) && GoodSlots(before + [add.hash]) && add.hash != Empty
    requires Keeps(o, ForestOf(o, before), nodes) && Linked(nodes, cached) && Flags(nodes, cached)
    requires tidy ==> Lean(o, ForestOf(o, before), nodes, {})
    ensures add.hash !in cached
    ensures var n := |before|;
            OnRow(o, g, rows, before + [add.hash], add, n, 0, add, nodes[n := add],
                  if add.remember then cached[add.hash := n] else cached, tidy)
  {
    hide Flags, Lean, CarryTops, Adding, CarryAt, Keeps, Linked, AtRow, ForestOf, GoodSlots;
    AddFirst(o, g, rows, before, add, nodes, cached);
    FirstFlag(nodes, cached, |before|, add);
    if tidy { AddFirstLean(o, g, rows, before, add, nodes, cached); }
  }

  lemma {:induction false} JoinRow(o: Layout, g: Layout, rows: nat, slots: seq<Hash>, add: Cached, c: nat, h: nat,
                                   node: Cached, nodes: map<nat, Cached>, cached: map<Hash, nat>, tidy: bool)
    requires OnRow(o, g, rows, slots, add, c, h, node, nodes, cached, tidy) && Shr(|slots| - 1, h) % 2 == 1
    requires |slots| > 0 && h <= rows && RootPosition(|slots| - 1, h, rows) in nodes &&
             nodes[RootPosition(|slots| - 1, h, rows)].hash != Empty
    ensures var s := RootPosition(|slots| - 1, h, rows);
            var node' := Cached(ParentHash(nodes[s].hash, node.hash), false);
            && Valid(rows, s) && Valid(rows, Sibling(s))
            && OnRow(o, g, rows, slots, add, g.Up(c), h + 1, node', PrunePosition(rows, nodes[g.Up(c) := node'], s),
                     cached, tidy)
  {
    hide Flags, Lean, CarryTops, AtRow, OnRow, PrunePosition, RootPosition, Shr;
    RowParts(o, g, rows, slots, add, c, h, node, nodes, cached, tidy);
    var s := RootPosition(|slots| - 1, h, rows);
    var node' := Cached(ParentHash(nodes[s].hash, node.hash), false);
    JoinStep(o, g, rows, slots, add, c, h, node, nodes, cached);
    if tidy { JoinStepLean(o, g, rows, slots, add, c, h, node, nodes, cached); }
    InnerFlag(nodes, cached, g.Up(c), node');
    PruneFlags(rows, nodes[g.Up(c) := node'], s, cached);
    MakeRow(o, g, rows, slots, add, g.Up(c), h + 1, node', PrunePosition(rows, nodes[g.Up(c) := node'], s), cached,
            tidy);
  }

  lemma MakeRow(o: Layout, g: Layout, rows: nat, slots: seq<Hash>, add: Cached, c: nat, h: nat, node: Cached,
                nodes: map<nat, Cached>, cached: map<Hash, nat>, tidy: bool)
    requires AtRow(o, g, rows, slots, add, c, h, node, nodes, cached) && Flags(nodes, cached)
    requires tidy ==> Lean(g, CarryTops(o, g, rows, slots, c, h), nodes, {})
    ensures OnRow(o, g, rows, slots, add, c, h, node, nodes, cached, tidy)
  {
    hide Flags, Lean, CarryTops, AtRow;
  }

  lemma {:induction false} EmptyRow(o: Layout, g: Layout, rows: nat, slots: seq<Hash>, add: Cached, c: nat, h: nat,
                                    node: Cached, nodes: map<nat, Cached>, cached: map<Hash, nat>,
                                    moved: map<nat, Cached>, cached': map<Hash, nat>, tidy: bool)
    requires OnRow(o, g, rows, slots, add, c, h, node, nodes, cached, tidy) && Shr(|slots| - 1, h) % 2 == 1
    requires |slots| > 0 && h <= rows && RootPosition(|slots| - 1, h, rows) in nodes &&
             nodes[RootPosition(|slots| - 1, h, rows)].hash == Empty
    requires var s := RootPosition(|slots| - 1, h, rows);
             MovedSet(g, s, nodes - {c}, moved, AllUnder(g, s)) && Linked(moved[g.Up(c) := node], cached')
    requires cached'.Keys == cached.Keys
    ensures var s := RootPosition(|slots| - 1, h, rows);
            && Valid(rows, s) && Valid(rows, Sibling(s))
            && OnRow(o, g, rows, slots, add, g.Up(c), h + 1, node, PrunePosition(rows, moved[g.Up(c) := node], s),
                     cached', tidy)
  {
    hide Flags, Lean, CarryTops, AtRow, OnRow, PrunePosition, RootPosition, Shr, MovedSet, AllUnder, Linked;
    RowParts(o, g, rows, slots, add, c, h, node, nodes, cached, tidy);
    var s := RootPosition(|slots| - 1, h, rows);
    EmptyStep(o, g, rows, slots, add, c, h, node, nodes, cached, moved, cached');
    if tidy { EmptyStepLean(o, g, rows, slots, add, c, h, node, nodes, cached, moved, cached'); }
    EmptyFlags(g, s, nodes, moved, c, cached, cached');
    PruneFlags(rows, moved[g.Up(c) := node], s, cached');
    MakeRow(o, g, rows, slots, add, g.Up(c), h + 1, node, PrunePosition(rows, moved[g.Up(c) := node], s), cached',
            tidy);
  }

  lemma {:induction false} LastRow(o: Layout, g: Layout, rows: nat, slots: seq<Hash>, add: Cached, c: nat, h: nat,
                                   node: Cached, nodes: map<nat, Cached>, cached: map<Hash, nat>, tidy: bool)
    requires OnRow(o, g, rows, slots, add, c, h, node, nodes, cached, tidy) && |slots| > 0 &&
             Shr(|slots| - 1, h) % 2 == 0
    ensures Keeps(g, ForestOf(g, slots), nodes) && Linked(nodes, cached) && Flags(nodes, cached)
    ensures tidy ==> Lean(g, ForestOf(g, slots), nodes, {})
  {
    hide Flags, Lean, CarryTops, AtRow, OnRow, Keeps, Linked, ForestOf, Shr;
    RowParts(o, g, rows, slots, add, c, h, node, nodes, cached, tidy);
    AddLast(o, g, rows, slots, add, c, h, node, nodes, cached);
    LastTops(o, g, rows, slots, add, c, h, node, nodes, cached);
  }
}
