/** A cache through one row of the carry. */
module MapCarry {
  import opened Hashes
  import opened Positions
  import opened Geometry
  import opened Layouts
  import opened Forests
  import opened Sequential
  import opened Slots
  import opened Uniqueness
  import opened OneDeletion
  import opened Pollards
  import opened MapTheory
  import opened MapLift
  import opened MapForest
  import opened MapMoves
  import opened MapLevels
  import opened MapSteps
  import opened MapRemove
  import opened MapSupport
  import opened MapFuse
  import opened MapAdd
  import opened MapGrow

  lemma {:induction false} PruneTops(g: Layout, rows: nat, trees: Forest, nodes: map<nat, Cached>,
                                     cached: map<Hash, nat>, s: nat)
    requires g.m == Pow2(rows) && Keeps(g, trees, nodes) && Linked(nodes, cached) && Inside(g, trees, s) && s !in trees
    ensures Valid(rows, s) && Valid(rows, Sibling(s))
    ensures var after := PrunePosition(rows, nodes, s);
            Keeps(g, trees, after) && Linked(after, cached) && forall t :: t in trees && t in nodes ==>
                  t in after && after[t] == nodes[t]
  {
    hide Above, Keeps, PrunePosition, Inside, Linked, TrueNodes, TopsOk, Provable, Aunts;
    PruneKeeps(g, rows, trees, nodes, s);
    var after := PrunePosition(rows, nodes, s);
    LinkedPruned(nodes, after, cached);
    KeepsParts(g, trees, after);
    TopsThere(g, trees, after);
  }

  lemma TopsThere(g: Layout, trees: Forest, nodes: map<nat, Cached>)
    requires TrueNodes(g, trees, nodes)
    ensures forall t :: t in trees ==> t in nodes
  {
    hide Inside, Sees, Merkle;
  }

  /** The entry at the place of the carry: the new leaf, or an inner node. */
  ghost predicate Carrying(add: Cached, node: Cached) {
    node == add || (!node.remember && node.hash != Empty && !IsLeafHash(node.hash))
  }

  /** The state of the carry on row `h`. */
  ghost predicate AtRow(o: Layout, g: Layout, rows: nat, slots: seq<Hash>, add: Cached, c: nat, h: nat, node: Cached,
                        nodes: map<nat, Cached>, cached: map<Hash, nat>) {
    && |slots| > 0 && Adding(o, g, rows, |slots| - 1) && CarryAt(g, rows, |slots| - 1, c, h)
    && Keeps(g, CarryTops(o, g, rows, slots, c, h), nodes) && Linked(nodes, cached)
    && c in nodes && nodes[c] == node && Carrying(add, node) && add.hash != Empty && IsLeafHash(add.hash)
  }

  /** What is beside the carry when there is a root on its row. */
  lemma {:induction false} RowFacts(o: Layout, g: Layout, rows: nat, slots: seq<Hash>, add: Cached, c: nat, h: nat,
                                    node: Cached, nodes: map<nat, Cached>, cached: map<Hash, nat>)
    requires AtRow(o, g, rows, slots, add, c, h, node, nodes, cached) && Shr(|slots| - 1, h) % 2 == 1
    ensures h <= rows && g.m == Pow2(rows)
    ensures var s, tops := RootPosition(|slots| - 1, h, rows), CarryTops(o, g, rows, slots, c, h);
            && Pair(g, rows, s, tops) && Sibling(s) == c && Sibling(c) == s && s % 2 == 0 && s in nodes && s != c &&
               g.Up(c) == g.Up(s)
            && (nodes[s].hash == Empty <==> tops[s].Nil?) && !tops[c].Nil?
            && g.Up(c) == Parent(rows, c) && g.Up(c) >= g.m && g.Left(g.Up(c)) == s && g.Up(c) !in nodes
            && CarryAt(g, rows, |slots| - 1, g.Up(c), h + 1)
            && CarryTops(o, g, rows, slots, g.Up(c), h + 1) == Fused(g, s, tops, Join(tops[s], tops[c]))
  {
    hide Above, Keeps, Inside, Linked, TopsOk, Provable, Aunts, Adding, CarryAt, GivesWay, Pow2, CarryTops, Row,
         Layout.WellShaped, Layout.IsRoot, Fused, TrueNodes, IsLeafHash;
    var n := |slots| - 1;
    CarryNode(g, rows, n, c, h);
    var s, tops := RootPosition(n, h, rows), CarryTops(o, g, rows, slots, c, h);
    CarryRoot(o, g, rows, n, c, h);
    CarryFuses(o, g, rows, n, slots, c, h);
    KeepsParts(g, tops, nodes);
    TopHashes(g, tops, nodes, s);
    TopHashes(g, tops, nodes, c);
    TopsSolid(g, tops, s);
    MerkleEmpty(tops[s]);
    PairFacts(g, rows, s, tops);
    OnlyInside(g, tops, nodes, g.Up(s));
    WayFacts(g, rows, s);
  }

  lemma TopsSolid(g: Layout, tops: Forest, s: nat)
    requires TopsOk(g, tops) && s in tops
    ensures LeavesOk(tops[s])
  {
    hide Above;
  }

  lemma OnlyInside(g: Layout, tops: Forest, nodes: map<nat, Cached>, p: nat)
    requires TrueNodes(g, tops, nodes) && !Inside(g, tops, p)
    ensures p !in nodes
  {
    hide Inside, Sees, Merkle;
  }

  /** A root that is not empty is joined with the carry. */
  lemma {:induction false} JoinStep(o: Layout, g: Layout, rows: nat, slots: seq<Hash>, add: Cached, c: nat, h: nat,
                                    node: Cached, nodes: map<nat, Cached>, cached: map<Hash, nat>)
    requires AtRow(o, g, rows, slots, add, c, h, node, nodes, cached) && Shr(|slots| - 1, h) % 2 == 1
    requires h <= rows && RootPosition(|slots| - 1, h, rows) in nodes &&
             nodes[RootPosition(|slots| - 1, h, rows)].hash != Empty
    ensures var s := RootPosition(|slots| - 1, h, rows);
            var node' := Cached(ParentHash(nodes[s].hash, node.hash), false);
            && Valid(rows, s) && Valid(rows, Sibling(s))
            && AtRow(o, g, rows, slots, add, g.Up(c), h + 1, node', PrunePosition(rows, nodes[g.Up(c) := node'], s),
                     cached)
  {
    hide Above, Keeps, Inside, Linked, TopsOk, Adding, CarryAt, GivesWay, Pow2, CarryTops, Row, Layout.WellShaped,
         Layout.IsRoot, Fused, PrunePosition, Pair, Carrying;
    var n := |slots| - 1;
    RowFacts(o, g, rows, slots, add, c, h, node, nodes, cached);
    var s, tops, u := RootPosition(n, h, rows), CarryTops(o, g, rows, slots, c, h), g.Up(c);
    var node' := Cached(ParentHash(nodes[s].hash, node.hash), false);
    PairTops(g, rows, s, tops);
    JoinKeeps(g, rows, s, tops, nodes);
    var tops', nodes' := CarryTops(o, g, rows, slots, u, h + 1), nodes[u := node'];
    LinkedInner(nodes, cached, u, nodes[s].hash, node.hash);
    FusedPair(g, rows, s, tops, Join(tops[s], tops[c]));
    PruneTops(g, rows, tops', nodes', cached, s);
    InnerCarried(add, nodes[s].hash, node.hash);
  }

  /** An inner node is no cached leaf. */
  lemma {:induction false} LinkedInner(nodes: map<nat, Cached>, cached: map<Hash, nat>, u: nat, l: Hash, r: Hash)
    requires Linked(nodes, cached) && u !in nodes
    ensures Linked(nodes[u := Cached(ParentHash(l, r), false)], cached)
  {
    assert !IsLeafHash(ParentHash(l, r));
    hide IsLeafHash, ParentHash;
  }

  lemma InnerCarried(add: Cached, l: Hash, r: Hash)
    ensures Carrying(add, Cached(ParentHash(l, r), false))
  {
  }

  /** After two tops became one, they are below it. */
  lemma {:induction false} FusedPair(g: Layout, rows: nat, s: nat, trees: Forest, x: Tree)
    requires Pair(g, rows, s, trees)
    ensures var trees' := Fused(g, s, trees, x);
            Inside(g, trees', s) && s !in trees' && g.Up(s) in trees'
  {
    hide Above, Inside, TopsOk, GivesWay;
    PairFacts(g, rows, s, trees);
    FusedInside(g, rows, s, trees, x, s);
    InsideTop(g, trees, s);
  }

  lemma InsideTop(g: Layout, trees: Forest, s: nat)
    requires s in trees
    ensures Inside(g, trees, s)
  {
  }

  /** The new position of the carried entry in the list of cached leaves, when an empty root gives way. */
  lemma {:induction false} CarryCached(nodes: map<nat, Cached>, cached: map<Hash, nat>, add: Cached, c: nat, u: nat)
    requires Linked(nodes, cached) && c in nodes && Carrying(add, nodes[c]) && (add.remember ==> add.hash in cached) &&
             IsLeafHash(add.hash)
    ensures MoveCached(nodes, cached, c, u) ==
            if add.remember && nodes[c].hash == add.hash then cached[add.hash := u] else cached
  {
    hide IsLeafHash;
    if nodes[c].hash in cached { assert cached[nodes[c].hash] == c; }
  }

  /** Before the entries move over an empty root. */
  lemma {:induction false} EmptyBegins(o: Layout, g: Layout, rows: nat, slots: seq<Hash>, add: Cached, c: nat, h: nat,
                                       node: Cached, nodes: map<nat, Cached>, cached: map<Hash, nat>)
    requires AtRow(o, g, rows, slots, add, c, h, node, nodes, cached) && Shr(|slots| - 1, h) % 2 == 1 &&
             (add.remember ==> add.hash in cached)
    requires h <= rows && RootPosition(|slots| - 1, h, rows) in nodes &&
             nodes[RootPosition(|slots| - 1, h, rows)].hash == Empty
    ensures var s := RootPosition(|slots| - 1, h, rows);
            var cached' := if add.remember && node.hash == add.hash then cached[add.hash := g.Up(c)] else cached;
            && EmptyTop(g, rows, s, CarryTops(o, g, rows, slots, c, h), nodes) && GivesWay(g, rows, s) &&
               Vacated(g, s, nodes - {c})
            && Linked((nodes - {c})[g.Up(c) := node], cached') && cached'.Keys == cached.Keys
  {
    hide Above, Keeps, Inside, Linked, TopsOk, Adding, CarryAt, GivesWay, Pow2, CarryTops, Row, Layout.WellShaped,
         Layout.IsRoot, Fused, Pair, Carrying, Starts, Vacated;
    RowFacts(o, g, rows, slots, add, c, h, node, nodes, cached);
    var s, tops, u := RootPosition(|slots| - 1, h, rows), CarryTops(o, g, rows, slots, c, h), g.Up(c);
    EmptyFacts(g, rows, s, tops, nodes);
    CarryCached(nodes, cached, add, c, u);
    UpDiffers(g, rows, s);
    LinkedMove(nodes, cached, c, u);
  }

  lemma {:induction false} UpDiffers(g: Layout, rows: nat, s: nat)
    requires GivesWay(g, rows, s)
    ensures g.Up(s) != Sibling(s) && g.Up(s) != s
  {
    hide Layout.WellShaped, Layout.IsRoot;
    g.NonRootFacts(s);
  }

  /** After the entries have moved over an empty root. */
  lemma {:induction false} EmptyStep(o: Layout, g: Layout, rows: nat, slots: seq<Hash>, add: Cached, c: nat, h: nat,
                                     node: Cached, nodes: map<nat, Cached>, cached: map<Hash, nat>,
                                     moved: map<nat, Cached>, cached': map<Hash, nat>)
    requires AtRow(o, g, rows, slots, add, c, h, node, nodes, cached) && Shr(|slots| - 1, h) % 2 == 1
    requires h <= rows && RootPosition(|slots| - 1, h, rows) in nodes &&
             nodes[RootPosition(|slots| - 1, h, rows)].hash == Empty
    requires var s := RootPosition(|slots| - 1, h, rows);
             MovedSet(g, s, nodes - {c}, moved, AllUnder(g, s)) && Linked(moved[g.Up(c) := node], cached')
    ensures var s := RootPosition(|slots| - 1, h, rows);
            && Valid(rows, s) && Valid(rows, Sibling(s))
            && AtRow(o, g, rows, slots, add, g.Up(c), h + 1, node, PrunePosition(rows, moved[g.Up(c) := node], s),
                     cached')
  {
    hide Above, Keeps, Inside, Linked, TopsOk, Adding, CarryAt, GivesWay, Pow2, CarryTops, Row, Layout.WellShaped,
         Layout.IsRoot, Fused, PrunePosition, Pair, Carrying, Starts, Vacated, MovedSet, AllUnder, Fresh;
    RowFacts(o, g, rows, slots, add, c, h, node, nodes, cached);
    var s, tops, u := RootPosition(|slots| - 1, h, rows), CarryTops(o, g, rows, slots, c, h), g.Up(c);
    assert EmptyTop(g, rows, s, tops, nodes);
    EmptyFacts(g, rows, s, tops, nodes);
    EmptyKeeps(g, rows, s, tops, nodes, moved);
    var tops', full, end := CarryTops(o, g, rows, slots, u, h + 1), moved[u := node], Fresh(g, s, nodes, moved);
    FusedPair(g, rows, s, tops, tops[c]);
    UpDiffers(g, rows, s);
    FreshIs(g, rows, s, nodes, moved, cached');
    if end != full { StalePruned(g, rows, s, tops', end, full); }
    PruneTops(g, rows, tops', end, cached', s);
  }

  /** With or without the stale entry. */
  lemma {:induction false} FreshIs(g: Layout, rows: nat, s: nat, nodes: map<nat, Cached>, moved: map<nat, Cached>,
                                   cached: map<Hash, nat>)
    requires GivesWay(g, rows, s) && Sibling(s) in nodes && s in nodes && nodes[s] == Cached(Empty, false)
    requires MovedSet(g, s, nodes - {Sibling(s)}, moved, AllUnder(g, s)) &&
             Linked(moved[g.Up(s) := nodes[Sibling(s)]], cached)
    ensures var full, end := moved[g.Up(s) := nodes[Sibling(s)]], Fresh(g, s, nodes, moved);
            && (end == full || (end == full - {s} && (s in full ==> !full[s].remember)))
            && Linked(end, cached) && g.Up(s) in end && end[g.Up(s)] == nodes[Sibling(s)]
  {
    hide Above, GivesWay, CameIn, AllUnder, Shift, IsLeafHash;
    UpDiffers(g, rows, s);
    var full, end := moved[g.Up(s) := nodes[Sibling(s)]], Fresh(g, s, nodes, moved);
    if !CameIn(g, s, nodes - {Sibling(s)}, AllUnder(g, s), s) {
      LinkedFewer(full, end, cached);
    }
  }

  /** A new hash is nowhere in the cache. */
  lemma {:induction false} NewHash(g: Layout, slots: seq<Hash>, nodes: map<nat, Cached>, cached: map<Hash, nat>,
                                   h: Hash)
    requires g.WellShaped() && GoodSlots(slots + [h]) && h != Empty && Keeps(g, ForestOf(g, slots), nodes) &&
             Linked(nodes, cached)
    ensures h !in cached && forall p :: p in nodes ==> nodes[p].hash != h
  {
    hide Layout.WellShaped, GoodSlots, At, ForestOf, Provable, Aunts, Inside, Sees, TopsOk, IsLeafHash, AllSolid,
         ForestOk;
    GoodBefore(slots, h);
    var f := ForestOf(g, slots);
    SlotsSolid(g, slots);
    SolidKeys(g, f);
    forall p | p in nodes
      ensures nodes[p].hash != h
    {
      if nodes[p].hash == h {
        SeesAt(g, f, p);
        LeafByHash(At(g, f, p), h);
        LeafOfSlots(g, slots, p, h);
      }
    }
  }

  lemma LeafByHash(t: Tree, h: Hash)
    requires Merkle(t) == h && IsLeafHash(h)
    ensures t == Leaf(h)
  {
  }

  /** The new leaf is put beside the forest. */
  lemma {:induction false} AddFirst(o: Layout, g: Layout, rows: nat, before: seq<Hash>, add: Cached,
                                    nodes: map<nat, Cached>, cached: map<Hash, nat>)
    requires Adding(o, g, rows, |before|) && GoodSlots(before + [add.hash]) && add.hash != Empty
    requires Keeps(o, ForestOf(o, before), nodes) && Linked(nodes, cached)
    ensures add.hash !in cached
    ensures var n := |before|;
            AtRow(o, g, rows, before + [add.hash], add, n, 0, add, nodes[n := add],
                  if add.remember then cached[add.hash := n] else cached)
  {
    hide GoodSlots, ForestOf, Inside, CarryAt, CarryTops, Keeps, LayoutFor, Layout.WellShaped, AllSolid, ForestOk,
         IsLeafHash;
    var n, slots := |before|, before + [add.hash];
    var f := ForestOf(o, before);
    LayoutFits(o, rows, n);
    LayoutFits(g, rows, n + 1);
    GoodBefore(before, add.hash);
    CarryStart(o, g, rows, n);
    CarryBegins(o, g, rows, before, add.hash);
    SlotsSolid(o, before);
    SolidKeys(o, f);
    InsideIff(o, f, n);
    SameSees(o, g, f, n);
    SameKeeps(o, g, f, nodes);
    LeafKeeps(g, f, nodes, n, add.hash, add.remember);
    NewHash(o, before, nodes, cached, add.hash);
    LinkedLeaf(nodes, cached, n, add);
    assert |slots| - 1 == n;
  }

  lemma {:induction false} LinkedLeaf(nodes: map<nat, Cached>, cached: map<Hash, nat>, n: nat, add: Cached)
    requires Linked(nodes, cached) && n !in nodes && IsLeafHash(add.hash) && add.hash !in cached &&
             forall p :: p in nodes ==> nodes[p].hash != add.hash
    ensures Linked(nodes[n := add], if add.remember then cached[add.hash := n] else cached)
  {
    hide IsLeafHash;
  }

  /** When the carry stops, the cache is one for the new slots. */
  lemma {:induction false} AddLast(o: Layout, g: Layout, rows: nat, slots: seq<Hash>, add: Cached, c: nat, h: nat,
                                   node: Cached, nodes: map<nat, Cached>, cached: map<Hash, nat>)
    requires AtRow(o, g, rows, slots, add, c, h, node, nodes, cached) && Shr(|slots| - 1, h) % 2 == 0
    ensures Keeps(g, ForestOf(g, slots), nodes) && Linked(nodes, cached)
  {
    hide Keeps, Linked, Adding, CarryAt, CarryTops, ForestOf, Carrying, IsLeafHash;
    CarryEnds(o, g, rows, |slots| - 1, slots, c, h);
  }
}
