/** What the operations on a cache establish. */
module MapUse {
  import opened Hashes
  import opened Options
  import opened Positions
  import opened Geometry
  import opened Layouts
  import opened Shape
  import opened Entries
  import opened Calculation
  import opened Forests
  import opened Honest
  import opened Slots
  import opened Uniqueness
  import opened Stumps
  import opened StumpState
  import opened Translation
  import opened OneDeletion
  import opened Pollards
  import opened MapTheory
  import opened MapForest
  import opened MapMoves
  import opened MapDeletions
  import opened MapAdd
  import opened MapProofs
  import opened Sequential
  import opened ProofPositions
  import opened Proving

  lemma {:induction false} NoNodes(rows: nat, p: nat)
    ensures p !in LayoutOf(rows, 0).nodes
  {
    if InForest(rows, 0, p) { ShrOfNone(Row(rows, p)); }
  }

  lemma ShrOfNone(h: nat)
    ensures Shr(0, h) == 0
  {
  }

  /** An empty cache is one for no leaves. */
  lemma {:induction false} NothingKept(rows: nat)
    ensures 0 <= Pow2(rows) && Keeps(LayoutOf(rows, 0), ForestOf(LayoutOf(rows, 0), []), map[]) && Linked(map[], map[])
  {
    var g := LayoutOf(rows, 0);
    forall p: nat
      ensures p !in g.nodes
    {
      NoNodes(rows, p);
    }
    assert ForestOf(g, []) == map[];
  }

  /** The hashes of leaves to be added. */
  function LeafHashesOf(adds: seq<Cached>): (r: seq<Hash>)
    ensures |r| == |adds| && forall i :: 0 <= i < |adds| ==> r[i] == adds[i].hash
  {
    seq(|adds|, i requires 0 <= i < |adds| => adds[i].hash)
  }

  /** The hashes of those to be remembered. */
  ghost function ToRemember(adds: seq<Cached>): set<Hash> {
    set x | x in adds && x.remember :: x.hash
  }

  lemma AddsNone(adds: seq<Cached>, slots: seq<Hash>)
    ensures slots + LeafHashesOf(adds[..0]) == slots && ToRemember(adds[..0]) == {}
  {
  }

  lemma {:induction false} AddsMore(adds: seq<Cached>, slots: seq<Hash>, i: nat)
    requires i < |adds| && GoodSlots(slots + LeafHashesOf(adds))
    ensures slots + LeafHashesOf(adds[..i + 1]) == (slots + LeafHashesOf(adds[..i])) + [adds[i].hash]
    ensures GoodSlots(slots + LeafHashesOf(adds[..i + 1]))
    ensures ToRemember(adds[..i + 1]) == ToRemember(adds[..i]) + if adds[i].remember then {adds[i].hash} else {}
  {
    assert adds[..i + 1] == adds[..i] + [adds[i]];
    assert slots + LeafHashesOf(adds[..i + 1]) == (slots + LeafHashesOf(adds[..i])) + [adds[i].hash];
    GoodPrefix(slots + LeafHashesOf(adds), |slots| + i + 1);
    assert (slots + LeafHashesOf(adds))[..|slots| + i + 1] == slots + LeafHashesOf(adds[..i + 1]);
  }

  /** The entries at the roots have the hashes of the roots. */
  lemma {:induction false} CachedRoots(g: Layout, rows: nat, slots: seq<Hash>, nodes: map<nat, Cached>)
    requires LayoutFor(g, rows, |slots|) && |slots| <= Pow2(rows) && Keeps(g, ForestOf(g, slots), nodes)
    ensures var list := RootList(|slots|, rows, 0);
            && (forall k :: 0 <= k < |list| ==> list[k] in nodes)
            && |RootHashes(slots)| == |list| && forall k :: 0 <= k < |list| ==>
               RootHashes(slots)[k] == nodes[list[k]].hash
  {
    hide LayoutFor, RootList, RootTrees, Collapse, TopsOk, Provable, Aunts, TrueNodes, IsRoot, Row, Layout.IsRoot,
         Merkle;
    var f, list := ForestOf(g, slots), RootList(|slots|, rows, 0);
    RootTreesAt(g, rows, slots, 0);
    RootListFacts(|slots|, rows, 0);
    forall k | 0 <= k < |list|
      ensures list[k] in nodes && RootHashes(slots)[k] == nodes[list[k]].hash
    {
      assert list[k] in list;
      LayoutAt(g, rows, |slots|, list[k]);
      RootNode(g, list[k]);
      assert list[k] in f && f[list[k]] == Collapse(g, slots, list[k]);
      TopHashes(g, f, nodes, list[k]);
    }
  }

  /** The targets taken from the list of cached leaves. */
  lemma {:induction false} CachedTargets(g: Layout, rows: nat, slots: seq<Hash>, nodes: map<nat, Cached>,
                                         cached: map<Hash, nat>, hashes: seq<Hash>, targets: seq<nat>)
    requires LayoutFor(g, rows, |slots|) && Keeps(g, ForestOf(g, slots), nodes) && Linked(nodes, cached)
    requires |targets| == |hashes| && forall i :: 0 <= i < |hashes| ==>
               hashes[i] in cached && targets[i] == cached[hashes[i]]
    ensures Elems(targets) <= Remembered(nodes) && ValidTargets(g, Elems(targets))
    ensures NoDuplicates(targets) <==> NoRepeat(hashes)
    ensures forall i :: 0 <= i < |hashes| ==> At(g, ForestOf(g, slots), targets[i]) == Leaf(hashes[i])
    ensures forall p :: p in targets ==> p in g.nodes
    ensures InOrder(SortPositions(targets)) && Elems(SortPositions(targets)) == Elems(targets)
    ensures Ascending(SortPositions(targets)) <==> NoRepeat(hashes)
    ensures forall p :: p in SortPositions(targets) ==> p in g.nodes
  {
    hide LayoutFor, ForestOf, TopsOk, Provable, Aunts, At, IsLeafHash, Layout.WellShaped, AllSolid, ForestOk,
         Layout.IsRoot, SortPositions, Touched, TrueNodes;
    var f := ForestOf(g, slots);
    LayoutFits(g, rows, |slots|);
    SlotsSolid(g, slots);
    SolidKeys(g, f);
    forall i | 0 <= i < |hashes|
      ensures At(g, f, targets[i]) == Leaf(hashes[i]) && targets[i] in Remembered(nodes)
    {
      CachedLeaf(g, f, nodes, cached, hashes[i]);
      assert nodes[targets[i]].remember;
    }
    LeafTargets(g, slots, hashes, targets);
  }

  /** What a proof needs is in the cache. */
  lemma {:induction false} NeededCached(g: Layout, rows: nat, slots: seq<Hash>, nodes: map<nat, Cached>,
                                        targets: seq<nat>, sorted: seq<nat>, needed: seq<nat>, i: nat)
    requires LayoutFor(g, rows, |slots|) && Keeps(g, ForestOf(g, slots), nodes) && Elems(targets) <= Remembered(nodes)
    requires Elems(sorted) == Elems(targets) && BesideTargets(g, sorted, needed) && i < |needed|
    ensures needed[i] in nodes && nodes[needed[i]].hash == Merkle(At(g, ForestOf(g, slots), needed[i]))
  {
    hide LayoutFor, ForestOf, At, Layout.WellShaped, Keeps, Merkle, Above, Layout.IsRoot;
    LayoutFits(g, rows, |slots|);
    assert OverTarget(g, sorted, Sibling(needed[i]));
    var c :| c in sorted && AtOrAbove(g, Sibling(needed[i]), c);
    assert c in Elems(sorted);
    NeededThere(g, slots, nodes, c, needed[i]);
  }

  /** The targets of a proof, sorted. */
  lemma {:induction false} IngestSetup(a: Layout, slots: seq<Hash>, hashes: seq<Hash>, proof: Proof)
    requires a == ShapeOf(|slots|) && LayoutFor(a, TreeRows(|slots|), |slots|) && Proves(slots, hashes, proof)
    ensures HonestProof(a, ForestOf(a, slots), hashes, proof) && |hashes| == |proof.targets| &&
            WellFormed(a, |slots|, Some(hashes), proof)
    ensures var sorted := PositionsOf(SortEntries(Zip(proof.targets, hashes)));
            Ascending(sorted) && Elems(sorted) == Elems(proof.targets) && forall p :: p in sorted ==> p in a.nodes
  {
    hide LayoutFor, At, ForestOf, PlanFor, ShapeOf, SortEntries, HonestProof, ValidTargets, Layout.WellShaped, Elems,
         SolidExcept;
    ItProves(slots, hashes, proof);
    LayoutFits(a, TreeRows(|slots|), |slots|);
    ForestOfCompact(a, slots);
    HonestKeys(a, ForestOf(a, slots), hashes, proof);
    HonestWellFormed(a, |slots|, ForestOf(a, slots), hashes, proof);
    SortedTargets(a, |slots|, Some(hashes), proof, SortEntries(Zip(proof.targets, hashes)));
    ValidAreNodes(a, proof.targets, PositionsOf(SortEntries(Zip(proof.targets, hashes))));
  }

  lemma ValidAreNodes(a: Layout, targets: seq<nat>, sorted: seq<nat>)
    requires ValidTargets(a, Elems(targets)) && Elems(sorted) == Elems(targets)
    ensures forall p :: p in sorted ==> p in a.nodes
  {
    forall p | p in sorted
      ensures p in a.nodes
    {
      assert p in Elems(sorted);
    }
  }

  /** The targets of a proof, in the rows of the cache. */
  lemma {:induction false} IngestTargets(a: Layout, g: Layout, from: nat, to: nat, slots: seq<Hash>, hashes: seq<Hash>,
                                         proof: Proof, sorted: seq<nat>, positions: seq<nat>)
    requires LayoutFor(a, from, |slots|) && LayoutFor(g, to, |slots|) &&
             HonestProof(a, ForestOf(a, slots), hashes, proof)
    requires Ascending(sorted) && Elems(sorted) == Elems(proof.targets) &&
             TranslatedList(Translated(a, from, to), sorted, positions)
    ensures Ascending(positions) && ValidTargets(g, Elems(positions))
    ensures Elems(positions) == Image(Translated(a, from, to), Elems(proof.targets))
    ensures forall x :: x in positions ==> At(g, ForestOf(g, slots), x).Leaf?
    ensures forall h :: h in HashSet(hashes) <==> exists x :: x in positions && At(g, ForestOf(g, slots), x) == Leaf(h)
    ensures |PlanFor(g, Elems(positions)).proof| == |proof.proof|
    ensures forall i :: 0 <= i < |proof.proof| ==>
              proof.proof[i] == Merkle(At(g, ForestOf(g, slots), PlanFor(g, Elems(positions)).proof[i]))
  {
    hide LayoutFor, At, ForestOf, PlanFor, Layout.WellShaped, Translated, SameForest, Image, Merkle, AllSolid, ForestOk,
         Layout.IsRoot, Touched, ValidTargets, TranslatedList, Ascending;
    var t := Translated(a, from, to);
    SameForestFor(a, g, |slots|, from, to);
    LayoutFits(g, to, |slots|);
    LayoutFits(a, from, |slots|);
    TranslatedFacts(a, g, t, sorted, positions);
    TargetsIn(a, slots, hashes, proof);
    AllTranslated(a, g, t, proof.targets);
    var targets' := seq(|proof.targets|, i requires 0 <= i < |proof.targets| => t[proof.targets[i]]);
    assert TranslatedList(t, proof.targets, targets') by { ListTranslated(t, proof.targets, targets'); }
    ImageOfList(t, proof.targets, targets');
    HonestSame(a, g, t, slots, hashes, proof.targets, targets', proof.proof);
    HonestParts(g, slots, hashes, targets', proof.proof, positions);
    SlotsSolid(g, slots);
    SolidKeys(g, ForestOf(g, slots));
    LeavesValid(g, ForestOf(g, slots), Elems(positions));
  }

  lemma ListTranslated(t: map<nat, nat>, list: seq<nat>, r: seq<nat>)
    requires |r| == |list| && forall i :: 0 <= i < |list| ==> list[i] in t && r[i] == t[list[i]]
    ensures TranslatedList(t, list, r)
  {
  }

  lemma {:induction false} TargetsIn(a: Layout, slots: seq<Hash>, hashes: seq<Hash>, proof: Proof)
    requires HonestProof(a, ForestOf(a, slots), hashes, proof)
    ensures forall p :: p in proof.targets ==> p in a.nodes
  {
    hide ForestOf, PlanFor;
    forall p | p in proof.targets
      ensures p in a.nodes
    {
      var i :| 0 <= i < |proof.targets| && proof.targets[i] == p;
    }
  }

  lemma AllTranslated(a: Layout, b: Layout, t: map<nat, nat>, list: seq<nat>)
    requires SameForest(a, b, t) && forall p :: p in list ==> p in a.nodes
    ensures forall i :: 0 <= i < |list| ==> list[i] in t
  {
    hide SameForest;
    SameShapes(a, b, t);
  }

  lemma {:induction false} HonestParts(g: Layout, slots: seq<Hash>, hashes: seq<Hash>, targets: seq<nat>,
                                       proof: seq<Hash>, positions: seq<nat>)
    requires HonestProof(g, ForestOf(g, slots), hashes, Proof(targets, proof)) && Elems(positions) == Elems(targets)
    ensures forall x :: x in positions ==> At(g, ForestOf(g, slots), x).Leaf?
    ensures forall h :: h in HashSet(hashes) <==> exists x :: x in positions && At(g, ForestOf(g, slots), x) == Leaf(h)
    ensures |PlanFor(g, Elems(positions)).proof| == |proof|
    ensures forall i :: 0 <= i < |proof| ==>
              proof[i] == Merkle(At(g, ForestOf(g, slots), PlanFor(g, Elems(positions)).proof[i]))
  {
    hide ForestOf, PlanFor, At, Merkle;
    var f := ForestOf(g, slots);
    forall x | x in positions
      ensures At(g, f, x).Leaf? && At(g, f, x).hash in HashSet(hashes)
    {
      assert x in Elems(positions);
      var i :| 0 <= i < |targets| && targets[i] == x;
      assert hashes[i] in hashes;
    }
    forall h | h in HashSet(hashes)
      ensures exists x :: x in positions && At(g, f, x) == Leaf(h)
    {
      var i :| 0 <= i < |hashes| && hashes[i] == h;
      assert targets[i] in Elems(positions);
    }
  }

  lemma {:induction false} NeededAscending(g: Layout, s: set<nat>)
    requires ValidTargets(g, s)
    ensures Ascending(PlanFor(g, s).proof)
  {
    hide PlanUpTo;
    PlanAscending(g, s, g.m);
  }

  /** What is calculated from a proof, by position. */
  lemma {:induction false} IngestWay(a: Layout, slots: seq<Hash>, hashes: seq<Hash>, proof: Proof, found: seq<Entry>)
    requires LayoutFor(a, TreeRows(|slots|), |slots|) && HonestProof(a, ForestOf(a, slots), hashes, proof) &&
             |hashes| == |proof.targets|
    requires WellFormed(a, |slots|, Some(hashes), proof) && Sorted(found)
    requires var t, given := TargetMap(Some(hashes), proof), GivenMap(a, proof);
             forall e: Entry :: e in found <==> Touched(a, t.Keys, e.pos) && e.hash == Calc(a, t, given, e.pos)
    ensures OnTheWay(a, ForestOf(a, slots), Elems(proof.targets), found)
    ensures forall p :: p in PositionsOf(found) ==> p in a.nodes
  {
    hide LayoutFor, ForestOf, HonestProof, Touched, Calc, At, Merkle, Layout.WellShaped, TargetMap, GivenMap,
         ValidTargets, PlanFor;
    LayoutFits(a, TreeRows(|slots|), |slots|);
    CalculatedWay(a, slots, hashes, proof, found);
    forall p | p in PositionsOf(found)
      ensures p in a.nodes
    {
      WayEntry(a, ForestOf(a, slots), Elems(proof.targets), found, p);
      TouchedNode(a, Elems(proof.targets), p);
    }
  }

  lemma {:induction false} WayTranslated(a: Layout, g: Layout, from: nat, to: nat, slots: seq<Hash>, targets: seq<nat>,
                                         positions: seq<nat>, sorted: seq<nat>, found: seq<Entry>, translated: seq<nat>)
    requires LayoutFor(a, from, |slots|) && LayoutFor(g, to, |slots|) &&
             OnTheWay(a, ForestOf(a, slots), Elems(targets), found)
    requires TranslatedList(Translated(a, from, to), PositionsOf(found), translated)
    requires Elems(positions) == Image(Translated(a, from, to), Elems(targets))
    ensures |translated| == |found| && OnTheWay(g, ForestOf(g, slots), Elems(positions),
                                                Zip(translated, HashesOf(found)))
  {
    hide LayoutFor, ForestOf, OnTheWay, Translated, Image, SameForest, Elems;
    SameForestFor(a, g, |slots|, from, to);
    WaySame(a, g, Translated(a, from, to), slots, Elems(targets), found, translated, Zip(translated, HashesOf(found)));
  }

  lemma ZipBack(found: seq<Entry>)
    ensures Zip(PositionsOf(found), HashesOf(found)) == found
  {
  }

  lemma WaySorted(g: Layout, f: Forest, s: set<nat>, entries: seq<Entry>)
    requires OnTheWay(g, f, s, entries)
    ensures Sorted(entries)
  {
    hide Touched, At, Merkle;
  }

  /** The cache with the whole proof in it. */
  lemma {:induction false} IngestEnd(g: Layout, rows: nat, slots: seq<Hash>, delHashes: seq<Hash>, positions: seq<nat>,
                                     needed: seq<nat>, hashes: seq<Hash>, entries: seq<Entry>, nodes: map<nat, Cached>,
                                     filled: map<nat, Cached>, nodes': map<nat, Cached>, cached: map<Hash, nat>,
                                     cached': map<Hash, nat>)
    requires LayoutFor(g, rows, |slots|) && GoodSlots(slots) && Keeps(g, ForestOf(g, slots), nodes) &&
             Linked(nodes, cached)
    requires forall x :: x in positions ==> At(g, ForestOf(g, slots), x).Leaf?
    requires forall h :: h in HashSet(delHashes) <==>
               exists x :: x in positions && At(g, ForestOf(g, slots), x) == Leaf(h)
    requires needed == PlanFor(g, Elems(positions)).proof && |hashes| == |needed|
    requires forall i :: 0 <= i < |needed| ==> hashes[i] == Merkle(At(g, ForestOf(g, slots), needed[i]))
    requires OnTheWay(g, ForestOf(g, slots), Elems(positions), entries)
    requires Filled(nodes, needed, hashes, filled, |needed|) && Stored(filled, entries, positions, nodes', |entries|)
    requires StoredLeaves(cached, entries, positions, cached', |entries|)
    ensures Keeps(g, ForestOf(g, slots), nodes') && Linked(nodes', cached') &&
            cached'.Keys == cached.Keys + HashSet(delHashes)
    ensures Ingesting(g, slots, Places(cached', HashSet(delHashes)), nodes, nodes')
  {
    hide LayoutFor, ForestOf, At, Merkle, Keeps, Linked, PlanFor, OnTheWay, Filled, Stored, StoredLeaves, GoodSlots,
         Layout.WellShaped, Layout.IsRoot, AllSolid, ForestOk, HashSet, Places, Ingesting;
    var f, s := ForestOf(g, slots), Elems(positions);
    LayoutFits(g, rows, |slots|);
    SlotsSolid(g, slots);
    SolidKeys(g, f);
    IngestDone(g, slots, positions, needed, hashes, entries, nodes, filled, nodes');
    IngestKeeps(g, slots, s, nodes, nodes');
    IngestLeaves(g, f, positions, entries, cached, cached');
    IngestLinked(g, slots, s, nodes, nodes', cached, cached');
    forall h
      ensures h in cached' <==> h in cached || h in HashSet(delHashes)
    {
      KeysWith(g, f, positions, cached, cached', h);
    }
    PlacesAre(g, slots, delHashes, positions, nodes, nodes', cached');
  }

  /** The cached leaves of a proof are at its targets. */
  lemma {:induction false} PlacesAre(g: Layout, slots: seq<Hash>, delHashes: seq<Hash>, positions: seq<nat>,
                                     nodes: map<nat, Cached>, nodes': map<nat, Cached>, cached': map<Hash, nat>)
    requires Ingesting(g, slots, Elems(positions), nodes, nodes') && Linked(nodes', cached')
    requires forall x :: x in positions ==> At(g, ForestOf(g, slots), x).Leaf?
    requires forall h :: h in HashSet(delHashes) <==>
               exists x :: x in positions && At(g, ForestOf(g, slots), x) == Leaf(h)
    requires HashSet(delHashes) <= cached'.Keys
    ensures Places(cached', HashSet(delHashes)) == Elems(positions)
  {
    hide ForestOf, At, Keeps, Layout.WellShaped, HashSet, IsLeafHash, Touched, ForestOk, AllSolid;
    var f, s := ForestOf(g, slots), Elems(positions);
    SlotsSolid(g, slots);
    SolidKeys(g, f);
    forall x | x in positions
      ensures At(g, f, x).hash in HashSet(delHashes) && cached'[At(g, f, x).hash] == x
    {
      var h := At(g, f, x).hash;
      assert At(g, f, x) == Leaf(h);
      TargetTouched(g, f, s, x);
      assert nodes'[x] == Cached(h, true);
    }
    forall h | h in HashSet(delHashes)
      ensures cached'[h] in s
    {
      var x :| x in positions && At(g, f, x) == Leaf(h);
    }
    forall x | x in s
      ensures x in Places(cached', HashSet(delHashes))
    {
      var h := At(g, f, x).hash;
    }
  }

  lemma {:induction false} KeysWith(g: Layout, f: Forest, positions: seq<nat>, cached: map<Hash, nat>,
                                    cached': map<Hash, nat>, h: Hash)
    requires CachedWith(g, f, Elems(positions), cached, cached')
    ensures h in cached || (exists x :: x in positions && At(g, f, x) == Leaf(h)) ==> h in cached'
  {
    hide At;
    if exists x :: x in positions && At(g, f, x) == Leaf(h) {
      var x :| x in positions && At(g, f, x) == Leaf(h);
      assert x in Elems(positions);
    }
  }

  /** A position in the rows that are needed is that of a leaf in more rows, and renumbering leaves it as it is. */
  lemma {:induction false} StaysLow(n: nat, rows: nat, p: nat)
    requires p in ShapeOf(n).nodes && n <= Pow2(rows) && TreeRows(n) != rows
    ensures TreeRows(n) < rows && Valid(rows, p) && Row(rows, p) <= TreeRows(n)
    ensures TranslatePos(p, rows, TreeRows(n)) == p
  {
    hide LayoutFor, TreeRows, ShapeOf, Pow2, Row, Start;
    Shapes(n, 0);
    LayoutFits(ShapeOf(n), TreeRows(n), n);
    ShapeOf(n).NodeBound(p);
    ShapeSize(n);
    if TreeRows(n) > rows { PowMono(rows, TreeRows(n) - 1); }
    PowMono(TreeRows(n) + 1, rows);
    PowStep(TreeRows(n) + 1);
    LowRow(rows, p);
    LowRow(TreeRows(n), 0);
  }

  lemma LowRow(rows: nat, p: nat)
    requires p < Pow2(rows)
    ensures Valid(rows, p) && Row(rows, p) == 0 && Offset(rows, p) == p && Start(rows, 0) == 0
  {
  }

  lemma ShapeSize(n: nat)
    ensures ShapeOf(n).m == Pow2(TreeRows(n)) && n <= Pow2(TreeRows(n)) && Pow2(TreeRows(n)) > 0
    ensures TreeRows(n) > 0 ==> n > Pow2(TreeRows(n) - 1)
  {
  }

  /** Renumber positions that are in the rows needed as if they were in more rows. */
  method TranslateLow(positions: seq<nat>, n: nat, rows: nat) returns (r: seq<nat>)
    requires n <= Pow2(rows) && TreeRows(n) != rows && forall p :: p in positions ==> p in ShapeOf(n).nodes
    ensures r == positions
  {
    hide ShapeOf, TreeRows, Row, Start, Pow2;
    r := [];
    for i := 0 to |positions|
      invariant r == positions[..i]
    {
      assert positions[i] in positions;
      StaysLow(n, rows, positions[i]);
      r := r + [TranslatePos(positions[i], rows, TreeRows(n))];
    }
  }

  lemma {:induction false} LocatedSame(a: Layout, b: Layout, t: map<nat, nat>, slots: seq<Hash>, hashes: seq<Hash>,
                                       targets: seq<nat>, targets': seq<nat>)
    requires SameForest(a, b, t) && TranslatedList(t, targets, targets') && b == ShapeOf(|slots|)
    requires |targets| == |hashes| && forall i :: 0 <= i < |hashes| ==>
               targets[i] in a.nodes && At(a, ForestOf(a, slots), targets[i]) == Leaf(hashes[i])
    ensures Located(slots, hashes, targets')
  {
    hide SameForest, At, ForestOf, ShapeOf;
    forall i | 0 <= i < |hashes|
      ensures At(b, ForestOf(b, slots), targets'[i]) == Leaf(hashes[i])
    {
      AtSame(a, b, t, slots, targets[i]);
    }
  }
}
