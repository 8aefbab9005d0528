/** Proofs from a cache, and proofs put into it. */
module MapProofs {
  import opened Hashes
  import opened Options
  import opened Positions
  import opened Layouts
  import opened Shape
  import opened Entries
  import opened Calculation
  import opened Forests
  import opened Honest
  import opened Sequential
  import opened Slots
  import opened Uniqueness
  import opened Stumps
  import opened Translation
  import opened OneDeletion
  import opened Pollards
  import opened MapTheory
  import opened MapLift
  import opened MapForest
  import opened MapMoves
  import opened MapDeletions
  import opened MapCarry

  /** A proof needs the same positions in any number of rows. */
  lemma {:induction false} PlanSame(a: Layout, b: Layout, t: map<nat, nat>, s: set<nat>)
    requires SameForest(a, b, t) && s <= a.nodes
    ensures TranslatedList(t, PlanFor(a, s).proof, PlanFor(b, Image(t, s)).proof)
  {
    hide SameForest, PlanUpTo, Image, Layout.WellShaped, IsProofPos;
    SameShapes(a, b, t);
    var la, lb := PlanFor(a, s).proof, PlanFor(b, Image(t, s)).proof;
    PlanMeaning(a, s, a.m);
    PlanMeaning(b, Image(t, s), b.m);
    PlanAscending(a, s, a.m);
    PlanAscending(b, Image(t, s), b.m);
    forall i | 0 <= i < |la|
      ensures la[i] in t
    {
      assert la[i] in la;
      ProofPosBound(a, s, la[i]);
    }
    var r := seq(|la|, i requires 0 <= i < |la| => t[la[i]]);
    TranslatedFacts(a, b, t, la, r);
    forall q: nat
      ensures q in r <==> q in lb
    {
      InElems(r, q);
      if q in r {
        ImageFrom(t, Elems(la), q);
        var p :| p in la && p in t && t[p] == q;
        ProofPosSame(a, b, t, s, p);
        SameNode(a, b, t, p);
        ProofPosBound(b, Image(t, s), q);
      }
      if q in lb {
        ProofPosBound(b, Image(t, s), q);
        var p := Untranslate(a, b, t, q);
        ProofPosSame(a, b, t, s, p);
        ProofPosBound(a, s, p);
        assert p in la;
        InImage(t, Elems(la), p);
      }
    }
    AscendingUnique(r, lb);
  }

  lemma InElems(s: seq<nat>, x: nat)
    ensures x in Elems(s) <==> x in s
  {
  }

  lemma ImageFrom(t: map<nat, nat>, s: set<nat>, q: nat)
    requires q in Image(t, s)
    ensures exists p :: p in s && p in t && t[p] == q
  {
  }

  lemma InImage(t: map<nat, nat>, s: set<nat>, p: nat)
    requires p in s && p in t
    ensures t[p] in Image(t, s)
  {
  }

  lemma {:induction false} ImageOfList(t: map<nat, nat>, list: seq<nat>, r: seq<nat>)
    requires TranslatedList(t, list, r)
    ensures Elems(r) == Image(t, Elems(list))
  {
    forall x | x in Image(t, Elems(list))
      ensures x in r
    {
      var p :| p in list && p in t && t[p] == x;
      var i :| 0 <= i < |list| && list[i] == p;
      assert r[i] == x;
    }
    forall x | x in r
      ensures x in Image(t, Elems(list))
    {
      var i :| 0 <= i < |r| && r[i] == x;
      assert list[i] in Elems(list);
    }
  }

  /** An honest proof is honest in any number of rows. */
  lemma {:induction false} HonestSame(a: Layout, b: Layout, t: map<nat, nat>, slots: seq<Hash>, hashes: seq<Hash>,
                                      targets: seq<nat>, targets': seq<nat>, proof: seq<Hash>)
    requires SameForest(a, b, t) && TranslatedList(t, targets, targets')
    requires HonestProof(a, ForestOf(a, slots), hashes, Proof(targets, proof))
    ensures HonestProof(b, ForestOf(b, slots), hashes, Proof(targets', proof))
  {
    hide SameForest, At, ForestOf, PlanFor, Image;
    SameShapes(a, b, t);
    ImageOfList(t, targets, targets');
    forall i, j | 0 <= i < j < |targets'|
      ensures targets'[i] != targets'[j]
    {
      if targets'[i] == targets'[j] { SameOnce(a, b, t, targets[i], targets[j]); }
    }
    forall i | 0 <= i < |hashes|
      ensures At(b, ForestOf(b, slots), targets'[i]) == Leaf(hashes[i])
    {
      AtSame(a, b, t, slots, targets[i]);
    }
    var s := Elems(targets);
    PlanSame(a, b, t, s);
    var na, nb := PlanFor(a, s).proof, PlanFor(b, Image(t, s)).proof;
    forall i | 0 <= i < |nb|
      ensures proof[i] == Merkle(At(b, ForestOf(b, slots), nb[i]))
    {
      AtSame(a, b, t, slots, na[i]);
    }
  }

  /** A target at or below makes a node touched. */
  lemma {:induction false} TouchedAbove(g: Layout, s: set<nat>, y: nat, c: nat)
    requires g.WellShaped() && c in s && c in g.nodes && y in g.nodes && AtOrAbove(g, y, c)
    ensures Touched(g, s, y)
    decreases y
  {
    hide Layout.WellShaped, Above;
    g.NodeBound(y);
    if y != c {
      AboveBounds(g, y, c);
      BelowChild(g, y, c);
      g.ChildFacts(y);
      TouchedAbove(g, s, if AtOrAbove(g, g.Left(y), c) then g.Left(y) else g.Right(y), c);
    }
  }

  /** What is beside the way up from a remembered leaf is in the cache. */
  lemma {:induction false} NeededThere(g: Layout, slots: seq<Hash>, nodes: map<nat, Cached>, c: nat, p: nat)
    requires g.WellShaped() && Keeps(g, ForestOf(g, slots), nodes) && c in Remembered(nodes) &&
             AtOrAbove(g, Sibling(p), c)
    requires p in g.nodes && !g.IsRoot(p)
    ensures p in nodes && nodes[p].hash == Merkle(At(g, ForestOf(g, slots), p))
  {
    hide Layout.WellShaped, Layout.IsRoot, Above, ForestOf, TopsOk, Provable, Aunts, Inside, Sees, AllSolid, ForestOk,
         At;
    var f := ForestOf(g, slots);
    SlotsSolid(g, slots);
    SolidKeys(g, f);
    g.NonRootFacts(p);
    SiblingBack(p);
    InsideIff(g, f, Sibling(p));
    ProvableAt(g, f, nodes, Sibling(p), c);
    SeesAt(g, f, p);
  }

  /** The cache with a proof put into it. */
  ghost predicate Ingested(g: Layout, f: Forest, s: set<nat>, nodes: map<nat, Cached>, nodes': map<nat, Cached>) {
    && (forall p: nat :: p in nodes' <==> p in nodes || IsProofPos(g, s, p) || Touched(g, s, p))
    && (forall p: nat :: p in nodes' && Touched(g, s, p) ==> nodes'[p] == Cached(Merkle(At(g, f, p)), p in s))
    && (forall p: nat :: p in nodes' && !Touched(g, s, p) ==>
          nodes'[p] == if p in nodes then nodes[p] else Cached(Merkle(At(g, f, p)), false))
  }

  /** The leaves of a forest that are to be put into a cache for it. */
  ghost predicate Ingesting(g: Layout, slots: seq<Hash>, s: set<nat>, nodes: map<nat, Cached>, nodes': map<nat, Cached>)
  {
    && g.WellShaped() && Keeps(g, ForestOf(g, slots), nodes) && Ingested(g, ForestOf(g, slots), s, nodes, nodes')
    && forall x :: x in s ==> At(g, ForestOf(g, slots), x).Leaf?
  }

  lemma {:induction false} IngestedTrue(g: Layout, slots: seq<Hash>, s: set<nat>, nodes: map<nat, Cached>,
                                        nodes': map<nat, Cached>, p: nat)
    requires Ingesting(g, slots, s, nodes, nodes') && p in nodes'
    ensures var f := ForestOf(g, slots);
            && Inside(g, f, p) && nodes'[p].hash == Merkle(Sees(g, f, p)) && (p !in f ==> !Sees(g, f, p).Nil?)
            && (nodes'[p].remember ==> Sees(g, f, p).Leaf?)
  {
    hide Layout.WellShaped, Layout.IsRoot, ForestOf, TopsOk, Provable, Aunts, Inside, Sees, Touched, AllSolid, ForestOk,
         At, Merkle;
    var f := ForestOf(g, slots);
    SlotsSolid(g, slots);
    SolidKeys(g, f);
    SeesAt(g, f, p);
    InsideIff(g, f, p);
    if Touched(g, s, p) {
      TouchedAt(g, f, s, p);
      if p in s { } else { TouchedNode(g, s, p); }
    } else if p !in nodes {
      NeededSolid(g, slots, s, p);
    }
  }

  lemma TouchedNode(g: Layout, s: set<nat>, p: nat)
    requires Touched(g, s, p)
    ensures p in g.nodes && (p !in s ==> TouchedBelow(g, s, p))
  {
  }

  /** There is something at every position a proof needs. */
  lemma {:induction false} NeededSolid(g: Layout, slots: seq<Hash>, s: set<nat>, p: nat)
    requires g.WellShaped() && IsProofPos(g, s, p) && forall x :: x in s ==> At(g, ForestOf(g, slots), x).Leaf?
    ensures p in g.nodes && !At(g, ForestOf(g, slots), p).Nil?
  {
    hide Layout.WellShaped, ForestOf, Touched, At;
    var f := ForestOf(g, slots);
    ForestOfCompact(g, slots);
    g.NonRootFacts(p);
    TouchedAt(g, f, s, Sibling(p));
    NotRootSibling(g, p);
  }

  lemma NotRootSibling(g: Layout, p: nat)
    requires g.WellShaped() && p in g.nodes && !g.IsRoot(p)
    ensures !g.IsRoot(Sibling(p))
  {
    g.NonRootFacts(p);
  }

  lemma {:induction false} IngestedSibling(g: Layout, slots: seq<Hash>, s: set<nat>, nodes: map<nat, Cached>,
                                           nodes': map<nat, Cached>, y: nat, c: nat)
    requires Ingesting(g, slots, s, nodes, nodes') && c in Remembered(nodes') && AtOrAbove(g, y, c) && y in g.nodes &&
             !g.IsRoot(y)
    ensures Sibling(y) in nodes'
  {
    hide Layout.WellShaped, Layout.IsRoot, ForestOf, TopsOk, Provable, Aunts, Inside, Touched, AllSolid, ForestOk, At,
         AtOrAbove, TrueNodes, Merkle;
    var f := ForestOf(g, slots);
    SlotsSolid(g, slots);
    SolidKeys(g, f);
    if c in s {
      IngestedNode(g, slots, s, nodes, nodes', c);
      TouchedAbove(g, s, y, c);
      BesideTouched(g, s, y);
    } else {
      assert c in Remembered(nodes);
      InsideIff(g, f, y);
      ProvableAt(g, f, nodes, y, c);
    }
  }

  lemma {:induction false} IngestedNode(g: Layout, slots: seq<Hash>, s: set<nat>, nodes: map<nat, Cached>,
                                        nodes': map<nat, Cached>, p: nat)
    requires Ingesting(g, slots, s, nodes, nodes') && (p in nodes' || p in s)
    ensures p in g.nodes
  {
    hide Layout.WellShaped, Layout.IsRoot, ForestOf, TopsOk, Provable, Aunts, Inside, AllSolid, ForestOk, Sees;
    var f := ForestOf(g, slots);
    SlotsSolid(g, slots);
    SolidKeys(g, f);
    InsideIff(g, f, p);
  }

  /** The sibling of a touched node is touched or needed. */
  lemma {:induction false} BesideTouched(g: Layout, s: set<nat>, y: nat)
    requires g.WellShaped() && Touched(g, s, y) && y in g.nodes && !g.IsRoot(y)
    ensures Touched(g, s, Sibling(y)) || IsProofPos(g, s, Sibling(y))
  {
    hide Layout.WellShaped, Touched;
    g.NonRootFacts(y);
    SiblingBack(y);
  }

  lemma {:induction false} IngestedAunt(g: Layout, slots: seq<Hash>, s: set<nat>, nodes: map<nat, Cached>,
                                        nodes': map<nat, Cached>, c: nat)
    requires Ingesting(g, slots, s, nodes, nodes') && c in nodes' && c in g.nodes && !g.IsRoot(c) && !g.IsRoot(g.Up(c))
    ensures Sibling(g.Up(c)) in nodes'
  {
    hide Layout.WellShaped, Layout.IsRoot, ForestOf, TopsOk, Provable, Aunts, Inside, Touched, AllSolid, ForestOk, At,
         TrueNodes, Merkle;
    var f := ForestOf(g, slots);
    SlotsSolid(g, slots);
    SolidKeys(g, f);
    g.NonRootFacts(c);
    if c in nodes {
      AuntAt(g, f, nodes, c);
    } else {
      var d := if Touched(g, s, c) then c else Sibling(c);
      TouchedParent(g, s, d);
      TouchedBelowToo(g, s, g.Up(c));
      BesideTouched(g, s, g.Up(c));
    }
  }

  lemma TouchedBelowToo(g: Layout, s: set<nat>, p: nat)
    requires TouchedBelow(g, s, p)
    ensures Touched(g, s, p)
  {
  }

  /** Putting a proof into the cache keeps what it must. */
  lemma {:induction false} IngestKeeps(g: Layout, slots: seq<Hash>, s: set<nat>, nodes: map<nat, Cached>,
                                       nodes': map<nat, Cached>)
    requires Ingesting(g, slots, s, nodes, nodes')
    ensures Keeps(g, ForestOf(g, slots), nodes')
  {
    hide Layout.WellShaped, Layout.IsRoot, ForestOf, TopsOk, Provable, Aunts, Inside, AllSolid, ForestOk, At, Keeps,
         Sees, TrueNodes, AtOrAbove, Ingesting;
    var f := ForestOf(g, slots);
    IngestingParts(g, slots, s, nodes, nodes');
    SlotsSolid(g, slots);
    SolidKeys(g, f);
    forall p: nat | p in nodes'
      ensures Inside(g, f, p) && nodes'[p].hash == Merkle(Sees(g, f, p)) &&
              (p !in f ==> !Sees(g, f, p).Nil?) && (nodes'[p].remember ==> Sees(g, f, p).Leaf?)
    {
      IngestedTrue(g, slots, s, nodes, nodes', p);
    }
    TopsThere(g, f, nodes);
    AllTrueNodes(g, f, nodes');
    forall y: nat, c | c in Remembered(nodes') && AtOrAbove(g, y, c) && Inside(g, f, y) && y !in f
      ensures Sibling(y) in nodes'
    {
      InsideIff(g, f, y);
      IngestedSibling(g, slots, s, nodes, nodes', y, c);
    }
    AllProvable(g, f, nodes');
    forall c | c in nodes' && c !in f && g.Up(c) !in f
      ensures Sibling(g.Up(c)) in nodes'
    {
      IngestedNode(g, slots, s, nodes, nodes', c);
      IngestedAunt(g, slots, s, nodes, nodes', c);
    }
    AllAunts(g, f, nodes');
    KeepsWhole(g, f, nodes');
  }

  lemma IngestingParts(g: Layout, slots: seq<Hash>, s: set<nat>, nodes: map<nat, Cached>, nodes': map<nat, Cached>)
    requires Ingesting(g, slots, s, nodes, nodes')
    ensures var f := ForestOf(g, slots);
            g.WellShaped() && TopsOk(g, f) && TrueNodes(g, f, nodes) && Provable(g, f, nodes) && Aunts(g, f, nodes)
    ensures forall p :: p in nodes ==> p in nodes'
  {
    hide Layout.WellShaped, ForestOf, TopsOk, TrueNodes, Provable, Aunts, Touched, IsProofPos, At;
  }

  /** The cached leaves with those of a proof. */
  ghost predicate CachedWith(g: Layout, f: Forest, s: set<nat>, cached: map<Hash, nat>, cached': map<Hash, nat>) {
    && (forall h :: h in cached' ==>
          (h in cached && cached'[h] == cached[h]) || (cached'[h] in s && At(g, f, cached'[h]) == Leaf(h)))
    && (forall h :: h in cached ==> h in cached')
    && (forall x :: x in s && At(g, f, x).Leaf? ==> At(g, f, x).hash in cached')
  }

  lemma {:induction false} IngestLinked(g: Layout, slots: seq<Hash>, s: set<nat>, nodes: map<nat, Cached>,
                                        nodes': map<nat, Cached>, cached: map<Hash, nat>, cached': map<Hash, nat>)
    requires GoodSlots(slots) && Ingesting(g, slots, s, nodes, nodes') && Linked(nodes, cached)
    requires CachedWith(g, ForestOf(g, slots), s, cached, cached')
    ensures Linked(nodes', cached')
  {
    hide Layout.WellShaped, Layout.IsRoot, ForestOf, At, Keeps, IsLeafHash, Ingesting, Linked, CachedWith, GoodSlots;
    forall h | h in cached'
      ensures IsLeafHash(h) && cached'[h] in nodes' && nodes'[cached'[h]] == Cached(h, true) &&
              At(g, ForestOf(g, slots), cached'[h]) == Leaf(h)
    {
      IngestedCached(g, slots, s, nodes, nodes', cached, cached', h);
    }
    forall p | p in nodes' && nodes'[p].hash in cached'
      ensures cached'[nodes'[p].hash] == p
    {
      IngestedOnce(g, slots, s, nodes, nodes', cached', p);
    }
    AllLinked(nodes', cached');
  }

  lemma AllLinked(nodes: map<nat, Cached>, cached: map<Hash, nat>)
    requires forall h :: h in cached ==> IsLeafHash(h) && cached[h] in nodes && nodes[cached[h]] == Cached(h, true)
    requires forall p :: p in nodes && nodes[p].hash in cached ==> cached[nodes[p].hash] == p
    ensures Linked(nodes, cached)
  {
    hide IsLeafHash;
  }

  lemma {:induction false} IngestedOnce(g: Layout, slots: seq<Hash>, s: set<nat>, nodes: map<nat, Cached>,
                                        nodes': map<nat, Cached>, cached': map<Hash, nat>, p: nat)
    requires GoodSlots(slots) && Ingesting(g, slots, s, nodes, nodes') && p in nodes' && nodes'[p].hash in cached'
    requires var h := nodes'[p].hash; IsLeafHash(h) && At(g, ForestOf(g, slots), cached'[h]) == Leaf(h)
    ensures cached'[nodes'[p].hash] == p
  {
    hide Layout.WellShaped, Layout.IsRoot, ForestOf, At, Keeps, IsLeafHash, Ingesting, GoodSlots, AllSolid, ForestOk,
         Sees, Merkle;
    var f, h := ForestOf(g, slots), nodes'[p].hash;
    IngestingParts(g, slots, s, nodes, nodes');
    IngestedTrue(g, slots, s, nodes, nodes', p);
    SlotsSolid(g, slots);
    SolidKeys(g, f);
    SeesAt(g, f, p);
    LeafByHash(At(g, f, p), h);
    OnePlace(g, slots, p, cached'[h]);
  }

  lemma {:induction false} IngestedCached(g: Layout, slots: seq<Hash>, s: set<nat>, nodes: map<nat, Cached>,
                                          nodes': map<nat, Cached>, cached: map<Hash, nat>, cached': map<Hash, nat>,
                                          h: Hash)
    requires GoodSlots(slots) && Ingesting(g, slots, s, nodes, nodes') && Linked(nodes, cached) && h in cached'
    requires CachedWith(g, ForestOf(g, slots), s, cached, cached')
    ensures IsLeafHash(h) && cached'[h] in nodes' && nodes'[cached'[h]] == Cached(h, true) &&
            At(g, ForestOf(g, slots), cached'[h]) == Leaf(h)
  {
    hide Layout.WellShaped, Layout.IsRoot, ForestOf, At, IsLeafHash, GoodSlots, AllSolid, ForestOk, TrueNodes, TopsOk,
         Provable, Aunts, Touched, IsProofPos;
    var f, p := ForestOf(g, slots), cached'[h];
    SlotsSolid(g, slots);
    SolidKeys(g, f);
    if p in s && At(g, f, p) == Leaf(h) {
      AtLeafHashes(g, slots, p);
      IngestedNode(g, slots, s, nodes, nodes', p);
      TouchedAbove(g, s, p, p);
    } else {
      CachedLeaf(g, f, nodes, cached, h);
      if Touched(g, s, p) { TouchedNode(g, s, p); TouchedAt(g, f, s, p); }
    }
  }

  /** The first `k` hashes of a proof, where the cache has none. */
  ghost predicate Filled(nodes: map<nat, Cached>, positions: seq<nat>, hashes: seq<Hash>, nodes': map<nat, Cached>,
                         k: nat)
    requires k <= |positions| <= |hashes|
  {
    && (forall p :: p in nodes' <==> p in nodes || p in positions[..k])
    && (forall p :: p in nodes && p in nodes' ==> nodes'[p] == nodes[p])
    && (forall j :: 0 <= j < k && positions[j] !in nodes && positions[j] in nodes' ==>
        nodes'[positions[j]] == Cached(hashes[j], false))
  }

  lemma FilledNone(nodes: map<nat, Cached>, positions: seq<nat>, hashes: seq<Hash>)
    requires |positions| <= |hashes|
    ensures Filled(nodes, positions, hashes, nodes, 0)
  {
  }

  lemma {:induction false} FilledMore(nodes: map<nat, Cached>, positions: seq<nat>, hashes: seq<Hash>,
                                      nodes': map<nat, Cached>, k: nat)
    requires k < |positions| <= |hashes| && Ascending(positions) && Filled(nodes, positions, hashes, nodes', k)
    ensures Filled(nodes, positions, hashes, if positions[k] in nodes' then nodes'
                   else nodes'[positions[k] := Cached(hashes[k], false)], k + 1)
  {
    assert positions[..k + 1] == positions[..k] + [positions[k]];
    assert positions[k] !in positions[..k];
    assert forall j :: 0 <= j < k ==> positions[j] in positions[..k];
  }

  /** The first `k` entries, put into the cache. */
  ghost predicate Stored(nodes: map<nat, Cached>, entries: seq<Entry>, targets: seq<nat>, nodes': map<nat, Cached>,
                         k: nat)
    requires k <= |entries|
  {
    && (forall p :: p in nodes' <==> p in nodes || p in PositionsOf(entries)[..k])
    && (forall p :: p in nodes && p in nodes' && p !in PositionsOf(entries)[..k] ==> nodes'[p] == nodes[p])
    && (forall j :: 0 <= j < k && entries[j].pos in nodes' ==>
        nodes'[entries[j].pos] == Cached(entries[j].hash, entries[j].pos in targets))
  }

  lemma StoredNone(nodes: map<nat, Cached>, entries: seq<Entry>, targets: seq<nat>)
    ensures Stored(nodes, entries, targets, nodes, 0)
  {
  }

  lemma {:induction false} StoredMore(nodes: map<nat, Cached>, entries: seq<Entry>, targets: seq<nat>,
                                      nodes': map<nat, Cached>, k: nat)
    requires k < |entries| && Sorted(entries) && Stored(nodes, entries, targets, nodes', k)
    ensures Stored(nodes, entries, targets, nodes'[entries[k].pos :=
                                                   Cached(entries[k].hash, entries[k].pos in targets)], k + 1)
  {
    var ps := PositionsOf(entries);
    assert ps[..k + 1] == ps[..k] + [ps[k]];
    assert ps[k] == entries[k].pos;
    assert forall j :: 0 <= j < k ==> ps[j] in ps[..k] && ps[j] == entries[j].pos != entries[k].pos;
  }

  /** The targets among the first `k` entries, put into the list of cached leaves. */
  ghost predicate StoredLeaves(cached: map<Hash, nat>, entries: seq<Entry>, targets: seq<nat>, cached': map<Hash, nat>,
                               k: nat)
    requires k <= |entries|
  {
    && (forall h :: h in cached' ==>
          (h in cached && cached'[h] == cached[h]) || (cached'[h] in targets && Entry(cached'[h], h) in entries[..k]))
    && (forall h :: h in cached ==> h in cached')
    && (forall j :: 0 <= j < k && entries[j].pos in targets ==> entries[j].hash in cached')
  }

  lemma StoredLeavesNone(cached: map<Hash, nat>, entries: seq<Entry>, targets: seq<nat>)
    ensures StoredLeaves(cached, entries, targets, cached, 0)
  {
  }

  lemma {:induction false} StoredLeavesMore(cached: map<Hash, nat>, entries: seq<Entry>, targets: seq<nat>,
                                            cached': map<Hash, nat>, k: nat)
    requires k < |entries| && StoredLeaves(cached, entries, targets, cached', k)
    ensures StoredLeaves(cached, entries, targets, if entries[k].pos in targets then
                         cached'[entries[k].hash := entries[k].pos] else cached', k + 1)
  {
    assert entries[..k + 1] == entries[..k] + [entries[k]];
  }

  /** The nodes on the way from the leaves of a proof, with the hashes of the forest. */
  ghost predicate OnTheWay(g: Layout, f: Forest, s: set<nat>, entries: seq<Entry>) {
    Sorted(entries) && forall e: Entry :: e in entries <==> Touched(g, s, e.pos) && e.hash == Merkle(At(g, f, e.pos))
  }

  /** What an honest proof calculates. */
  lemma {:induction false} CalculatedWay(a: Layout, slots: seq<Hash>, hashes: seq<Hash>, proof: Proof,
                                         entries: seq<Entry>)
    requires a.WellShaped() && HonestProof(a, ForestOf(a, slots), hashes, proof) && Sorted(entries)
    requires var t, given := TargetMap(Some(hashes), proof), GivenMap(a, proof);
             forall e: Entry :: e in entries <==> Touched(a, t.Keys, e.pos) && e.hash == Calc(a, t, given, e.pos)
    ensures OnTheWay(a, ForestOf(a, slots), Elems(proof.targets), entries)
  {
    hide Layout.WellShaped, ForestOf, Touched, Calc, At, Merkle, TargetMap, GivenMap, HonestProof, SolidExcept, Leaves,
         ProofOf;
    var f := ForestOf(a, slots);
    ForestOfCompact(a, slots);
    HonestTargets(a, f, hashes, proof);
    GivenMapFacts(a, f, hashes, proof);
    HonestKeys(a, f, hashes, proof);
    var t, given := TargetMap(Some(hashes), proof), GivenMap(a, proof);
    forall e: Entry
      ensures e in entries <==> Touched(a, Elems(proof.targets), e.pos) && e.hash == Merkle(At(a, f, e.pos))
    {
      if Touched(a, t.Keys, e.pos) { Complete(a, f, t, given, e.pos); }
    }
  }

  lemma HonestKeys(a: Layout, f: Forest, hashes: seq<Hash>, proof: Proof)
    requires HonestProof(a, f, hashes, proof)
    ensures |hashes| == |proof.targets| && |proof.proof| >= |PlanFor(a, Elems(proof.targets)).proof|
    ensures TargetMap(Some(hashes), proof).Keys == Elems(proof.targets)
  {
    hide At, PlanFor, TargetMap;
    TargetMapFacts(Some(hashes), proof);
  }

  /** The same nodes in another number of rows. */
  lemma {:induction false} WaySame(a: Layout, b: Layout, t: map<nat, nat>, slots: seq<Hash>, s: set<nat>,
                                   entries: seq<Entry>, positions: seq<nat>, entries': seq<Entry>)
    requires SameForest(a, b, t) && OnTheWay(a, ForestOf(a, slots), s, entries) &&
             TranslatedList(t, PositionsOf(entries), positions)
    requires entries' == Zip(positions, HashesOf(entries))
    ensures OnTheWay(b, ForestOf(b, slots), Image(t, s), entries')
  {
    hide SameForest, ForestOf, Touched, At, Merkle, Image, Layout.WellShaped;
    SameShapes(a, b, t);
    AscendingPositions(entries);
    TranslatedFacts(a, b, t, PositionsOf(entries), positions);
    forall e: Entry
      ensures e in entries' <==> Touched(b, Image(t, s), e.pos) && e.hash == Merkle(At(b, ForestOf(b, slots), e.pos))
    {
      if e in entries' {
        var i :| 0 <= i < |entries'| && entries'[i] == e;
        assert entries[i] in entries;
        TouchedSame(a, b, t, s, entries[i].pos);
        AtSame(a, b, t, slots, entries[i].pos);
      }
      if Touched(b, Image(t, s), e.pos) && e.hash == Merkle(At(b, ForestOf(b, slots), e.pos)) {
        TouchedNode(b, Image(t, s), e.pos);
        var p := Untranslate(a, b, t, e.pos);
        TouchedSame(a, b, t, s, p);
        AtSame(a, b, t, slots, p);
        assert Entry(p, e.hash) in entries;
        var i :| 0 <= i < |entries| && entries[i] == Entry(p, e.hash);
        assert entries'[i] == e;
      }
    }
  }

  lemma AscendingPositions(s: seq<Entry>)
    requires Sorted(s)
    ensures Ascending(PositionsOf(s))
  {
  }

  /** A proof has been put into the cache, its hashes first and then the nodes on the way. */
  ghost predicate PutIn(g: Layout, f: Forest, targets: seq<nat>, needed: seq<nat>, hashes: seq<Hash>,
                        entries: seq<Entry>, nodes: map<nat, Cached>, filled: map<nat, Cached>,
                        nodes': map<nat, Cached>) {
    && needed == PlanFor(g, Elems(targets)).proof && |hashes| == |needed|
    && (forall i :: 0 <= i < |needed| ==> hashes[i] == Merkle(At(g, f, needed[i])))
    && OnTheWay(g, f, Elems(targets), entries)
    && Filled(nodes, needed, hashes, filled, |needed|) && Stored(filled, entries, targets, nodes', |entries|)
  }

  lemma {:induction false} FilledAt(g: Layout, f: Forest, targets: seq<nat>, needed: seq<nat>, hashes: seq<Hash>,
                                    nodes: map<nat, Cached>, filled: map<nat, Cached>, p: nat)
    requires g.WellShaped() && needed == PlanFor(g, Elems(targets)).proof && |hashes| == |needed|
    requires forall i :: 0 <= i < |needed| ==> hashes[i] == Merkle(At(g, f, needed[i]))
    requires Filled(nodes, needed, hashes, filled, |needed|)
    ensures p in filled <==> p in nodes || IsProofPos(g, Elems(targets), p)
    ensures p in filled ==> filled[p] == if p in nodes then nodes[p] else Cached(Merkle(At(g, f, p)), false)
  {
    hide Layout.WellShaped, IsProofPos, At, Merkle, PlanUpTo, Elems;
    var s := Elems(targets);
    PlanMeaning(g, s, g.m);
    assert needed[..|needed|] == needed;
    if IsProofPos(g, s, p) { ProofPosBound(g, s, p); }
    if p in needed {
      var i :| 0 <= i < |needed| && needed[i] == p;
    }
  }

  lemma {:induction false} StoredAt(g: Layout, f: Forest, targets: seq<nat>, entries: seq<Entry>,
                                    filled: map<nat, Cached>, nodes': map<nat, Cached>, p: nat)
    requires OnTheWay(g, f, Elems(targets), entries) && Stored(filled, entries, targets, nodes', |entries|)
    ensures p in nodes' <==> p in filled || Touched(g, Elems(targets), p)
    ensures p in nodes' && Touched(g, Elems(targets), p) ==>
            nodes'[p] == Cached(Merkle(At(g, f, p)), p in Elems(targets))
    ensures p in nodes' && !Touched(g, Elems(targets), p) ==> p in filled && nodes'[p] == filled[p]
  {
    hide Touched, At, Merkle;
    var ps := PositionsOf(entries);
    assert ps[..|entries|] == ps;
    WayEntry(g, f, Elems(targets), entries, p);
    if p in ps {
      var i :| 0 <= i < |entries| && entries[i].pos == p;
      assert entries[i] in entries;
    }
  }

  /** All the hashes of a proof are in the cache. */
  lemma {:induction false} IngestDone(g: Layout, slots: seq<Hash>, targets: seq<nat>, needed: seq<nat>,
                                      hashes: seq<Hash>, entries: seq<Entry>, nodes: map<nat, Cached>,
                                      filled: map<nat, Cached>, nodes': map<nat, Cached>)
    requires g.WellShaped() && Keeps(g, ForestOf(g, slots), nodes) &&
             (forall x :: x in targets ==> At(g, ForestOf(g, slots), x).Leaf?)
    requires PutIn(g, ForestOf(g, slots), targets, needed, hashes, entries, nodes, filled, nodes')
    ensures Ingesting(g, slots, Elems(targets), nodes, nodes')
  {
    hide Layout.WellShaped, ForestOf, Touched, At, Merkle, Keeps, PlanFor, IsProofPos, OnTheWay, Filled, Stored;
    var f, s := ForestOf(g, slots), Elems(targets);
    forall p: nat
      ensures p in nodes' <==> p in nodes || IsProofPos(g, s, p) || Touched(g, s, p)
      ensures p in nodes' && Touched(g, s, p) ==> nodes'[p] == Cached(Merkle(At(g, f, p)), p in s)
      ensures p in nodes' && !Touched(g, s, p) ==> nodes'[p] == if p in nodes then nodes[p]
              else Cached(Merkle(At(g, f, p)), false)
    {
      FilledAt(g, f, targets, needed, hashes, nodes, filled, p);
      StoredAt(g, f, targets, entries, filled, nodes', p);
    }
  }

  lemma {:induction false} WayEntry(g: Layout, f: Forest, s: set<nat>, entries: seq<Entry>, p: nat)
    requires OnTheWay(g, f, s, entries)
    ensures p in PositionsOf(entries) <==> Touched(g, s, p)
    ensures p in PositionsOf(entries) ==> exists i :: 0 <= i < |entries| && entries[i].pos == p
  {
    hide Touched, At, Merkle;
    var e := Entry(p, Merkle(At(g, f, p)));
    EntryOf(entries, e);
    if p in PositionsOf(entries) {
      var i :| 0 <= i < |entries| && entries[i].pos == p;
      assert entries[i] in entries;
    }
  }

  lemma {:induction false} IngestLeaves(g: Layout, f: Forest, targets: seq<nat>, entries: seq<Entry>,
                                        cached: map<Hash, nat>, cached': map<Hash, nat>)
    requires ForestOk(g, f) && OnTheWay(g, f, Elems(targets), entries) &&
             (forall x :: x in targets ==> At(g, f, x).Leaf?)
    requires StoredLeaves(cached, entries, targets, cached', |entries|)
    ensures CachedWith(g, f, Elems(targets), cached, cached')
    ensures forall h :: h in cached' ==> h in cached || exists x :: x in targets && At(g, f, x) == Leaf(h)
  {
    hide Touched, At, ForestOk;
    var s := Elems(targets);
    assert entries[..|entries|] == entries;
    forall h | h in cached'
      ensures (h in cached && cached'[h] == cached[h]) || (cached'[h] in s && At(g, f, cached'[h]) == Leaf(h))
    {
      if !(h in cached && cached'[h] == cached[h]) { assert Entry(cached'[h], h) in entries; }
    }
    forall x | x in s
      ensures At(g, f, x).hash in cached'
    {
      OkShape(g, f);
      TargetTouched(g, f, s, x);
      var e := Entry(x, Merkle(At(g, f, x)));
      assert e in entries;
      var j :| 0 <= j < |entries| && entries[j] == e;
    }
  }

  lemma TargetTouched(g: Layout, f: Forest, s: set<nat>, x: nat)
    requires g.WellShaped() && x in s && At(g, f, x).Leaf?
    ensures Touched(g, s, x)
  {
  }
}
