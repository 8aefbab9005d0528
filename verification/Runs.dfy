/** Whole runs: any sequence of blocks. */
module Runs {
  import opened Hashes
  import opened Options
  import opened Geometry
  import opened Layouts
  import opened Shape
  import opened Entries
  import opened Calculation
  import opened Forests
  import opened Slots
  import opened Uniqueness
  import opened Stumps
  import opened StumpState
  import opened Soundness
  import opened AddStep
  import opened Pollards
  import opened PollardState
  import opened Nieces
  import opened ProofUpdate
  import opened MapTheory
  import opened MapUse
  import opened MapRemap
  import opened MapContents
  import opened Proving
  import opened MapPollards
  import opened Positions
  import opened Honest
  import ProofAlgebra

  /** The slots after the first `k` blocks. */
  ghost function SlotsAfter(blocks: seq<Block>, k: nat): seq<Hash>
    requires k <= |blocks|
  {
    if k == 0 then [] else After(SlotsAfter(blocks, k - 1), blocks[k - 1])
  }

  /** Every block applies to what the blocks before it left. */
  ghost predicate HonestRun(blocks: seq<Block>) {
    CollisionFree() && forall k :: 0 <= k < |blocks| ==> Applies(SlotsAfter(blocks, k), blocks[k])
  }

  ghost predicate Picks(b: Block, h: Hash) {
    exists i: nat :: PickedHash(b.adds, b.remembers, i, h)
  }

  /** A hash is cached after `k` blocks: one of them remembered it, and none since deleted it. */
  ghost predicate CachedAfter(blocks: seq<Block>, k: nat, h: Hash)
    requires k <= |blocks|
  {
    exists i :: 0 <= i < k && Picks(blocks[i], h) && forall j :: i < j < k ==> h !in blocks[j].dels
  }

  lemma {:induction false} CachedNext(blocks: seq<Block>, k: nat, before: seq<Hash>, after: seq<Hash>)
    requires k < |blocks| && Caches(before, blocks[k], after)
    requires forall h :: h in before <==> CachedAfter(blocks, k, h)
    ensures forall h :: h in after <==> CachedAfter(blocks, k + 1, h)
  {
    hide PickedHash;
    forall h
      ensures h in after <==> CachedAfter(blocks, k + 1, h)
    {
      if CachedAfter(blocks, k + 1, h) {
        var i :| 0 <= i < k + 1 && Picks(blocks[i], h) && forall j :: i < j < k + 1 ==> h !in blocks[j].dels;
        if i < k { assert CachedAfter(blocks, k, h); }
      }
      if h in after {
        if Picks(blocks[k], h) {
          assert CachedAfter(blocks, k + 1, h);
        } else {
          var i :| 0 <= i < k && Picks(blocks[i], h) && forall j :: i < j < k ==> h !in blocks[j].dels;
          assert CachedAfter(blocks, k + 1, h);
        }
      }
    }
  }

  lemma {:induction false} EmptyProof()
    ensures Proves([], [], Proof([], []))
  {
    var g := ShapeOf(0);
    Shapes(0, 0);
    hide LayoutFor, ShapeOf;
    LayoutFits(g, TreeRows(0), 0);
    assert Elems([]) == {};
    NothingNeeded(g);
  }

  /** The hashes of an honest proof are leaf hashes. */
  lemma {:induction false} HonestLeafHashes(slots: seq<Hash>, hashes: seq<Hash>, proof: Proof)
    requires GoodSlots(slots) && Proves(slots, hashes, proof)
    ensures forall i :: 0 <= i < |hashes| ==> IsLeafHash(hashes[i])
    ensures |hashes| == |proof.targets| && WellFormed(ShapeOf(|slots|), |slots|, Some(hashes), proof)
  {
    hide LayoutFor, ShapeOf, At, ForestOf, GoodSlots, IsLeafHash, WellFormed, PlanFor;
    var g := ShapeOf(|slots|);
    Shapes(|slots|, 0);
    LayoutFits(g, TreeRows(|slots|), |slots|);
    ForestOfCompact(g, slots);
    HonestWellFormed(g, |slots|, ForestOf(g, slots), hashes, proof);
    forall i | 0 <= i < |hashes|
      ensures IsLeafHash(hashes[i])
    {
      AtLeafHashes(g, slots, proof.targets[i]);
    }
  }

  /** Every honest proof is accepted by the stump, and by its check alone. */
  lemma {:induction false} ProvesAccepted(slots: seq<Hash>, hashes: seq<Hash>, proof: Proof)
    requires Proves(slots, hashes, proof)
    ensures |hashes| == |proof.targets| && Calculable(ShapeOf(|slots|), |slots|, Some(hashes), proof)
    ensures exists x: seq<nat> :: Matches(x, Candidates(ShapeOf(|slots|), |slots|, Some(hashes), proof),
                                          RootHashes(slots))
  {
    hide LayoutFor, ShapeOf, HonestProof, ForestOf, WellFormed, Calculable, Matches, Candidates, RootHashes;
    Shapes(|slots|, 0);
    UpdateHonest(ShapeOf(|slots|), slots, hashes, proof);
  }

  lemma HonestBlock(blocks: seq<Block>, k: nat)
    requires HonestRun(blocks) && k < |blocks|
    ensures Applies(SlotsAfter(blocks, k), blocks[k]) && CollisionFree()
    ensures SlotsAfter(blocks, k + 1) == After(SlotsAfter(blocks, k), blocks[k])
  {
    hide Applies, CollisionFree, After;
  }

  lemma AppliesFacts(slots: seq<Hash>, b: Block)
    requires Applies(slots, b)
    ensures GoodSlots(slots) && Proves(slots, b.dels, b.proof) && forall i :: 0 <= i < |b.adds| ==> b.adds[i] != Empty
    ensures GoodSlots(After(slots, b)) && CollisionFree()
  {
    hide Proves, After, GoodSlots, CollisionFree;
  }

  lemma CountAfter(slots: seq<Hash>, b: Block)
    ensures |After(slots, b)| == |slots| + |b.adds|
  {
  }

  /** An honest block deletes leaves by their positions. */
  lemma {:induction false} DeletesOfBlock(slots: seq<Hash>, b: Block)
    requires Applies(slots, b)
    ensures Deletes(ShapeOf(|slots|), slots, b.proof.targets, HashSet(b.dels))
  {
    hide LayoutFor, ShapeOf, At, ForestOf, GoodSlots, PlanFor, CollisionFree, LeafPositions, After, HashSet;
    Shapes(|slots|, 0);
    LayoutFits(ShapeOf(|slots|), TreeRows(|slots|), |slots|);
    HonestPositions(ShapeOf(|slots|), slots, b.dels, b.proof);
  }

  /** The leaves of a block, with the flags for those to be remembered. */
  method FlagLeaves(adds: seq<Hash>, remembers: seq<nat>) returns (leaves: seq<Cached>)
    ensures LeafHashesOf(leaves) == adds
    ensures forall h :: h in ToRemember(leaves) <==> exists i: nat :: PickedHash(adds, remembers, i, h)
  {
    hide PickedHash;
    var picked := PickRemembered(adds, remembers);
    leaves := [];
    for i := 0 to |adds|
      invariant |leaves| == i && forall j :: 0 <= j < i ==> leaves[j] == Cached(adds[j], adds[j] in picked)
    {
      leaves := leaves + [Cached(adds[i], adds[i] in picked)];
    }
    forall h
      ensures h in ToRemember(leaves) <==> h in picked
    {
      if h in picked {
        var i: nat :| PickedHash(adds, remembers, i, h);
        PickedThere(adds, remembers, i, h);
        assert leaves[i] in leaves;
      }
    }
  }

  lemma PickedThere(adds: seq<Hash>, remembers: seq<nat>, i: nat, h: Hash)
    requires PickedHash(adds, remembers, i, h)
    ensures i < |adds| && adds[i] == h
  {
  }

  /** All four stand for the slots, the cache of positions and the cached proof have the same leaves, and the cache has
      nothing that it does not need. */
  ghost predicate Agree(stump: Stump, pollard: Pollard, maps: MapPollard, cache: CachedProof, cached: seq<Hash>,
                        slots: seq<Hash>)
    reads stump, pollard, maps, cache
  {
    && stump.Represents(slots) && pollard.Represents(slots) && maps.Represents(slots) &&
       Proves(slots, cached, cache.proof) && Ascending(cache.proof.targets)
    && maps.Tidy(slots, {}) && forall h :: h in maps.cachedLeaves <==> h in cached
  }

  /** One block, applied to the cache of positions, which is tidy again when the proof that was put in is used up. */
  method ApplyToMaps(b: Block, leaves: seq<Cached>, maps: MapPollard, ghost slots: seq<Hash>)
    requires Applies(slots, b) && LeafHashesOf(leaves) == b.adds && maps.Represents(slots)
    modifies maps
    ensures maps.Represents(After(slots, b))
    ensures maps.cachedLeaves.Keys == old(maps.cachedLeaves).Keys - HashSet(b.dels) + ToRemember(leaves)
    ensures maps.totalRows == MoreRows(old(maps.totalRows), |slots| + |b.adds|)
    ensures old(maps.Tidy(slots, {})) ==> maps.Tidy(After(slots, b), {})
  {
    hide Applies, Proves, GoodSlots, CollisionFree, Erase, ShapeOf, Deletes, HashSet, LeafHashesOf, ToRemember,
         MapPollard.Represents, MapPollard.Tidy, MoreRows;
    AppliesFacts(slots, b);
    DeletesOfBlock(slots, b);
    FlaggedHashes(leaves);
    maps.Ingest(b.dels, b.proof, slots);
    var _ := maps.Modify(leaves, b.dels, b.proof, slots);
  }

  /** One block, applied to all four. */
  method Apply(b: Block, stump: Stump, pollard: Pollard, maps: MapPollard, cache: CachedProof, cached: seq<Hash>,
               ghost slots: seq<Hash>)
    returns (cached': seq<Hash>)
    requires Applies(slots, b) && Agree(stump, pollard, maps, cache, cached, slots)
    modifies stump, pollard, maps, cache
    ensures Agree(stump, pollard, maps, cache, cached', After(slots, b)) && Caches(cached, b, cached')
    ensures maps.totalRows == MoreRows(old(maps.totalRows), |slots| + |b.adds|)
  {
    hide Applies, Proves, Truthful, Caches, GoodSlots, CollisionFree, Erase, ShapeOf, Matches, Candidates, WellFormed,
         Calculable, IsLeafHash, RootHashes, RootTrees, Deletes, HashSet, Grove, Refused, CoveredBy, InTrees,
         LeafHashesOf, ToRemember, MapPollard.Represents, MapPollard.Tidy, MoreRows;
    AppliesFacts(slots, b);
    HonestLeafHashes(slots, b.dels, b.proof);
    ProvesAccepted(slots, b.dels, b.proof);
    var r := stump.Update(b.dels, b.adds, b.proof, slots);
    DeletesOfBlock(slots, b);
    pollard.Modify(b.adds, b.dels, b.proof.targets, ShapeOf(|slots|), slots);
    var leaves := FlagLeaves(b.adds, b.remembers);
    ApplyToMaps(b, leaves, maps, slots);
    cached' := cache.Update(cached, b, r.GetOr(Report([], 0, [], [])), slots);
    SameCached(b, leaves, cached, cached');
  }

  /** Run a stump, a full pollard, a cache of positions and a cached proof from nothing through any honest blocks:
      the stump has the roots of what is left, and so have the pollard and the cache; the cached proof proves
      what was remembered and is left, and the stump accepts it; the cache has the same leaves. */
  method Run(blocks: seq<Block>, rows: nat)
    returns (stump: Stump, pollard: Pollard, maps: MapPollard, cache: CachedProof, cached: seq<Hash>)
    requires HonestRun(blocks)
    ensures stump.Represents(SlotsAfter(blocks, |blocks|))
    ensures pollard.Represents(SlotsAfter(blocks, |blocks|)) && StoredHashes(pollard.Nodes()) == stump.roots
    ensures maps.Represents(SlotsAfter(blocks, |blocks|)) && forall h :: h in maps.cachedLeaves <==>
            CachedAfter(blocks, |blocks|, h)
    ensures forall p :: p in maps.nodes <==> Wanted(LayoutOf(maps.totalRows, maps.numLeaves), maps.cachedLeaves, p)
    ensures maps.Tidy(SlotsAfter(blocks, |blocks|), {}) &&
            maps.totalRows == MoreRows(rows, |SlotsAfter(blocks, |blocks|)|)
    ensures Proves(SlotsAfter(blocks, |blocks|), cached, cache.proof) && Ascending(cache.proof.targets)
    ensures forall h :: h in cached <==> CachedAfter(blocks, |blocks|, h)
    ensures Accepts(stump.roots, stump.numLeaves, cached, cache.proof)
  {
    hide HonestRun, SlotsAfter, Applies, Proves, Truthful, Caches, CachedAfter, GoodSlots, CollisionFree, Erase,
         ShapeOf, Matches, Candidates, WellFormed, IsLeafHash, RootHashes, RootTrees, Deletes, HashSet, StoredHashes,
         Grove, Accepts, LeafHashesOf, ToRemember, MapPollard.Represents, MapPollard.Tidy, MoreRows, Wanted, LayoutOf;
    stump := new Stump();
    pollard := new Pollard();
    maps := new MapPollard(rows);
    cache := new CachedProof();
    cached := [];
    EmptyProof();
    RunStart(blocks);
    EnoughRows(rows, 0);
    for k := 0 to |blocks|
      invariant Agree(stump, pollard, maps, cache, cached, SlotsAfter(blocks, k))
      invariant forall h :: h in cached <==> CachedAfter(blocks, k, h)
      invariant maps.totalRows == MoreRows(rows, |SlotsAfter(blocks, k)|)
      invariant fresh(stump) && fresh(pollard) && fresh(cache) && fresh(maps)
    {
      ghost var slots, before := SlotsAfter(blocks, k), cached;
      HonestBlock(blocks, k);
      cached := Apply(blocks[k], stump, pollard, maps, cache, cached, slots);
      CachedNext(blocks, k, before, cached);
      CountAfter(slots, blocks[k]);
      MoreRowsTwice(rows, |slots|, |slots| + |blocks[k].adds|);
    }
    HasWhatItNeeds(maps, SlotsAfter(blocks, |blocks|));
    GroveHashes(pollard.Nodes(), SlotsAfter(blocks, |blocks|));
    ProvesAccepted(SlotsAfter(blocks, |blocks|), cached, cache.proof);
    AcceptedBy(SlotsAfter(blocks, |blocks|), cached, cache.proof);
  }

  lemma FlaggedHashes(leaves: seq<Cached>)
    ensures |LeafHashesOf(leaves)| == |leaves|
    ensures forall i :: 0 <= i < |leaves| ==> LeafHashesOf(leaves)[i] == leaves[i].hash
  {
    var hashes := LeafHashesOf(leaves);
    assert |hashes| == |leaves|;
  }

  /** The cache and the cached proof have the same leaves after a block. */
  lemma SameCached(b: Block, leaves: seq<Cached>, before: seq<Hash>, after: seq<Hash>)
    requires Caches(before, b, after)
    requires forall h :: h in ToRemember(leaves) <==> exists i: nat :: PickedHash(b.adds, b.remembers, i, h)
    ensures forall h :: h in after <==> (h in before && h !in HashSet(b.dels)) || h in ToRemember(leaves)
  {
    hide PickedHash, ToRemember;
    forall h
      ensures h in after <==> (h in before && h !in HashSet(b.dels)) || h in ToRemember(leaves)
    {
      var picked := exists i: nat :: PickedHash(b.adds, b.remembers, i, h);
      assert h in ToRemember(leaves) <==> picked;
      assert h in HashSet(b.dels) <==> h in b.dels;
    }
  }

  /** A stump with these roots accepts the proof. */
  ghost predicate Accepts(roots: seq<Hash>, n: nat, hashes: seq<Hash>, proof: Proof) {
    && |hashes| == |proof.targets| && Calculable(ShapeOf(n), n, Some(hashes), proof)
    && exists x: seq<nat> :: Matches(x, Candidates(ShapeOf(n), n, Some(hashes), proof), roots)
  }

  lemma AcceptedBy(slots: seq<Hash>, hashes: seq<Hash>, proof: Proof)
    requires |hashes| == |proof.targets| && Calculable(ShapeOf(|slots|), |slots|, Some(hashes), proof)
    requires exists x: seq<nat> :: Matches(x, Candidates(ShapeOf(|slots|), |slots|, Some(hashes), proof),
                                           RootHashes(slots))
    ensures Accepts(RootHashes(slots), |slots|, hashes, proof)
  {
    hide Calculable, Matches, Candidates, RootHashes, ShapeOf;
  }

  lemma RunStart(blocks: seq<Block>)
    ensures SlotsAfter(blocks, 0) == [] && forall h :: !CachedAfter(blocks, 0, h)
  {
  }

  /** A proof for some targets of a cached proof, whose targets are in order, is honest.  There is one exactly when they
      are among its targets and none is wanted twice. */
  method SubsetOfCached(cache: CachedProof, cached: seq<Hash>, wants: seq<nat>, n: nat, ghost slots: seq<Hash>)
    returns (r: Option<(seq<Hash>, Proof)>)
    requires n == |slots| && GoodSlots(slots) && Proves(slots, cached, cache.proof) && Ascending(cache.proof.targets)
    ensures r.Some? <==> NoDuplicates(wants) && forall w :: w in wants ==> w in cache.proof.targets
    ensures r.Some? ==> r.value.1.targets == wants && Proves(slots, r.value.0, r.value.1)
  {
    hide GoodSlots, HonestProof, ShapeOf, ForestOf, Ascending, LayoutFor, Compact, DistinctLeaves, Layout.WellShaped,
         ProofAlgebra.Rank, IndexOf, TreeRows, ProofAlgebra.HonestHashes;
    ghost var g := ShapeOf(n);
    Shapes(n, 0);
    LayoutFits(g, TreeRows(n), n);
    ForestOfCompact(g, slots);
    DistinctForest(g, slots);
    r := ProofAlgebra.GetProofSubset(cache.proof, cached, wants, n, g, ForestOf(g, slots));
    if r.Some? {
      ProofAlgebra.SubsetHonest(g, ForestOf(g, slots), cache.proof, cached, wants, r.value.0, r.value.1);
      forall i | 0 <= i < |wants|
        ensures ProofAlgebra.Rank(cache.proof, wants[i]) == IndexOf(cache.proof.targets, wants[i])
      {
        ProofAlgebra.RankInOrder(cache.proof, wants[i]);
      }
    }
  }

  /** After any run, a proof for any of the cached leaves can be taken from the cached proof, and is honest. */
  method RunThenSubset(blocks: seq<Block>, rows: nat, wants: seq<nat>)
    returns (cache: CachedProof, r: Option<(seq<Hash>, Proof)>)
    requires HonestRun(blocks)
    ensures r.Some? <==> NoDuplicates(wants) && forall w :: w in wants ==> w in cache.proof.targets
    ensures r.Some? ==> r.value.1.targets == wants && Proves(SlotsAfter(blocks, |blocks|), r.value.0, r.value.1)
  {
    hide HonestRun, SlotsAfter, Proves, CachedAfter, GoodSlots, StoredHashes, Accepts, Stump.Represents,
         Pollard.Represents, MapPollard.Represents, MapPollard.Tidy, Wanted, LayoutOf, MoreRows, Ascending,
         NoDuplicates;
    var stump, _, _, made, cached := Run(blocks, rows);
    cache := made;
    GoodAfter(blocks);
    StumpCount(stump, SlotsAfter(blocks, |blocks|));
    r := SubsetOfCached(cache, cached, wants, stump.numLeaves, SlotsAfter(blocks, |blocks|));
  }

  lemma GoodAfter(blocks: seq<Block>)
    requires HonestRun(blocks)
    ensures GoodSlots(SlotsAfter(blocks, |blocks|))
  {
    hide CollisionFree, Proves, IsLeafHash;
    if |blocks| > 0 { assert Applies(SlotsAfter(blocks, |blocks| - 1), blocks[|blocks| - 1]); }
  }

  lemma StumpCount(stump: Stump, slots: seq<Hash>)
    requires stump.Represents(slots)
    ensures stump.numLeaves == |slots|
  {
    hide RootHashes;
  }

  /** What the cache of positions proves, a stump for the same slots accepts. */
  method ProveToStump(maps: MapPollard, stump: Stump, hashes: seq<Hash>, ghost slots: seq<Hash>)
    returns (ok: bool, proof: Proof)
    requires maps.Represents(slots) && stump.Represents(slots) && GoodSlots(slots)
    ensures ok <==> HashSet(hashes) <= maps.cachedLeaves.Keys
    ensures ok && NoRepeat(hashes) ==>
              Proves(slots, hashes, proof) && Accepts(stump.roots, stump.numLeaves, hashes, proof)
  {
    hide MapPollard.Represents, GoodSlots, HashSet, Proves, Accepts, RootHashes, ShapeOf, Calculable, Matches,
         Candidates;
    ok, proof := maps.Prove(hashes, slots);
    if ok && NoRepeat(hashes) {
      ProvesAccepted(slots, hashes, proof);
      AcceptedBy(slots, hashes, proof);
    }
  }

  /** What the cache of positions proves, it verifies itself, in however many rows it has. */
  method ProveThenVerify(maps: MapPollard, hashes: seq<Hash>, ghost slots: seq<Hash>)
    returns (proof: Proof, verified: bool)
    requires maps.Represents(slots) && GoodSlots(slots) && NoRepeat(hashes) && HashSet(hashes) <= maps.cachedLeaves.Keys
    modifies maps
    ensures Proves(slots, hashes, proof) && verified && maps.Represents(slots)
    ensures maps.nodes == old(maps.nodes) && maps.cachedLeaves == old(maps.cachedLeaves)
  {
    hide MapPollard.Represents, GoodSlots, HashSet, Proves, Accepts, RootHashes, ShapeOf, Calculable, Matches,
         Candidates, NoRepeat;
    var ok, made := maps.Prove(hashes, slots);
    proof := made;
    ProvesAccepted(slots, hashes, proof);
    TargetsInside(slots, hashes, proof);
    verified := maps.Verify(hashes, proof, false, slots);
  }

  lemma TargetsInside(slots: seq<Hash>, hashes: seq<Hash>, proof: Proof)
    requires Calculable(ShapeOf(|slots|), |slots|, Some(hashes), proof)
    ensures forall p :: p in proof.targets ==> p in ShapeOf(|slots|).nodes
  {
    hide LayoutFor, Calculation.Run, ShapeOf, TreeRows;
  }

  /** What the full pollard proves, it verifies itself, and a stump for the same slots accepts it. */
  method PollardToStump(pollard: Pollard, stump: Stump, hashes: seq<Hash>, ghost slots: seq<Hash>)
    returns (proof: Proof, verified: bool)
    requires CollisionFree() && pollard.Represents(slots) && stump.Represents(slots) && GoodSlots(slots)
    requires NoRepeat(hashes) && HashSet(hashes) <= pollard.nodeMap.Keys
    ensures Proves(slots, hashes, proof) && Accepts(stump.roots, stump.numLeaves, hashes, proof) && verified
  {
    hide Pollard.Represents, GoodSlots, HashSet, Proves, Accepts, RootHashes, ShapeOf, Calculable, Matches, Candidates,
         NoRepeat, CollisionFree;
    var _, made := pollard.Prove(hashes, slots);
    proof := made;
    ProvesAccepted(slots, hashes, proof);
    AcceptedBy(slots, hashes, proof);
    SameCount(pollard, slots);
    verified := pollard.Verify(hashes, proof, slots);
  }

  lemma SameCount(pollard: Pollard, slots: seq<Hash>)
    requires pollard.Represents(slots)
    ensures pollard.numLeaves == |slots|
  {
    hide Grove, RootTrees;
  }

  /** All leaves ever added, in order. */
  ghost function AllAdds(blocks: seq<Block>, k: nat): seq<Hash>
    requires k <= |blocks|
  {
    if k == 0 then [] else AllAdds(blocks, k - 1) + blocks[k - 1].adds
  }

  /** All hashes ever deleted. */
  ghost function AllDels(blocks: seq<Block>, k: nat): set<Hash>
    requires k <= |blocks|
  {
    if k == 0 then {} else AllDels(blocks, k - 1) + HashSet(blocks[k - 1].dels)
  }

  /** No hash is added in or after the block that deletes it. */
  ghost predicate NoReturn(blocks: seq<Block>) {
    forall i, j, h :: 0 <= i <= j < |blocks| && h in blocks[i].dels ==> h !in blocks[j].adds
  }

  lemma {:induction false} NotAddedAgain(blocks: seq<Block>, k: nat, j: nat)
    requires NoReturn(blocks) && k <= j + 1 && j < |blocks|
    ensures forall h :: h in blocks[j].adds ==> h !in AllDels(blocks, k)
  {
    if k > 0 {
      NotAddedAgain(blocks, k - 1, j);
    }
  }

  lemma {:induction false} EraseAgain(slots: seq<Hash>, adds: seq<Hash>, d: set<Hash>, e: set<Hash>)
    requires Empty !in e && forall h :: h in adds ==> h !in d + e
    ensures Erase(Erase(slots, d), e) + adds == Erase(slots + adds, d + e)
  {
    var a, b := Erase(Erase(slots, d), e) + adds, Erase(slots + adds, d + e);
    forall i | 0 <= i < |a|
      ensures a[i] == b[i]
    {
      if i >= |slots| { assert adds[i - |slots|] in adds; }
    }
  }

  /** What is left depends on the leaves added and the hashes deleted, not on how they were
      distributed over blocks. */
  lemma {:induction false} SlotsOfHistory(blocks: seq<Block>, k: nat)
    requires NoReturn(blocks) && k <= |blocks|
    requires forall i :: 0 <= i < |blocks| ==> Empty !in blocks[i].dels
    ensures SlotsAfter(blocks, k) == Erase(AllAdds(blocks, k), AllDels(blocks, k))
  {
    if k > 0 {
      hide Erase;
      SlotsOfHistory(blocks, k - 1);
      NotAddedAgain(blocks, k, k - 1);
      EraseAgain(AllAdds(blocks, k - 1), blocks[k - 1].adds, AllDels(blocks, k - 1), HashSet(blocks[k - 1].dels));
    } else {
      assert Erase([], {}) == [];
    }
  }

  /** The indexes of the slots that were deleted. */
  ghost function GoneIndexes(blocks: seq<Block>, k: nat): set<nat>
    requires k <= |blocks|
  {
    if k == 0 then {}
    else
      var slots := SlotsAfter(blocks, k - 1);
      GoneIndexes(blocks, k - 1) + set i: nat | i < |slots| && slots[i] in blocks[k - 1].dels
  }

  /** What is left depends on the leaves added and the slots deleted, not on how they were distributed over blocks. */
  lemma {:induction false} SlotsByIndex(blocks: seq<Block>, k: nat)
    requires k <= |blocks|
    ensures |SlotsAfter(blocks, k)| == |AllAdds(blocks, k)|
    ensures forall i :: 0 <= i < |AllAdds(blocks, k)| ==>
              SlotsAfter(blocks, k)[i] == if i in GoneIndexes(blocks, k) then Empty else AllAdds(blocks, k)[i]
    ensures forall i :: i in GoneIndexes(blocks, k) ==> i < |AllAdds(blocks, k)|
  {
    if k > 0 { SlotsByIndex(blocks, k - 1); }
  }

  /** Two runs that add the same leaves and delete the same slots end with the same slots and the same roots. */
  lemma {:induction false} HistoryIndependent(a: seq<Block>, b: seq<Block>)
    requires AllAdds(a, |a|) == AllAdds(b, |b|) && GoneIndexes(a, |a|) == GoneIndexes(b, |b|)
    ensures SlotsAfter(a, |a|) == SlotsAfter(b, |b|)
    ensures RootHashes(SlotsAfter(a, |a|)) == RootHashes(SlotsAfter(b, |b|))
  {
    hide SlotsAfter, AllAdds, GoneIndexes, RootHashes;
    SlotsByIndex(a, |a|);
    SlotsByIndex(b, |b|);
    assert SlotsAfter(a, |a|) == SlotsAfter(b, |b|);
  }

  /** There is one honest proof with its targets in order for some leaves. */
  lemma {:induction false} OneProof(slots: seq<Hash>, hashes: seq<Hash>, proof: Proof, hashes': seq<Hash>,
                                    proof': Proof)
    requires GoodSlots(slots) && Proves(slots, hashes, proof) && Proves(slots, hashes', proof')
    requires Ascending(proof.targets) && Ascending(proof'.targets) && forall h :: h in hashes <==> h in hashes'
    ensures hashes == hashes' && proof == proof'
  {
    hide LayoutFor, ShapeOf, At, ForestOf, GoodSlots, PlanFor, Merkle, Ascending;
    var g := ShapeOf(|slots|);
    Shapes(|slots|, 0);
    LayoutFits(g, TreeRows(|slots|), |slots|);
    DistinctForest(g, slots);
    SameTargets(g, ForestOf(g, slots), hashes, proof, hashes', proof');
    SameTargets(g, ForestOf(g, slots), hashes', proof', hashes, proof);
    AscendingUnique(proof.targets, proof'.targets);
    assert hashes == hashes' && proof.proof == proof'.proof;
  }

  lemma {:induction false} SameTargets(g: Layout, f: Forest, hashes: seq<Hash>, proof: Proof, hashes': seq<Hash>,
                                       proof': Proof)
    requires DistinctLeaves(g, f) && HonestProof(g, f, hashes, proof) && HonestProof(g, f, hashes', proof')
    requires forall h :: h in hashes ==> h in hashes'
    ensures forall p :: p in proof.targets ==> p in proof'.targets
  {
    hide At, PlanFor, Merkle;
    forall i | 0 <= i < |proof.targets|
      ensures proof.targets[i] in proof'.targets
    {
      assert hashes[i] in hashes';
      var j :| 0 <= j < |hashes'| && hashes'[j] == hashes[i];
      assert proof.targets[i] == proof'.targets[j];
    }
  }

  /** Two honest runs that add the same leaves, delete the same slots and have the same leaves cached end the same,
      however the leaves were distributed over blocks and in whatever order they were remembered: the same roots, the
      same nodes of the full pollard but for the flags, the same entries of the map pollard, the same cached proof. */
  method TwoRuns(a: seq<Block>, b: seq<Block>, rows: nat)
    returns (stumps: (Stump, Stump), pollards: (Pollard, Pollard), maps: (MapPollard, MapPollard),
             caches: (CachedProof, CachedProof))
    requires HonestRun(a) && HonestRun(b)
    requires AllAdds(a, |a|) == AllAdds(b, |b|) && GoneIndexes(a, |a|) == GoneIndexes(b, |b|)
    requires forall h :: CachedAfter(a, |a|, h) <==> CachedAfter(b, |b|, h)
    ensures stumps.0.roots == stumps.1.roots && stumps.0.numLeaves == stumps.1.numLeaves
    ensures StrippedAll(pollards.0.Nodes()) == StrippedAll(pollards.1.Nodes())
    ensures maps.0.nodes == maps.1.nodes && maps.0.cachedLeaves == maps.1.cachedLeaves
    ensures caches.0.proof == caches.1.proof
  {
    hide HonestRun, SlotsAfter, AllAdds, GoneIndexes, CachedAfter, Proves, GoodSlots, RootHashes, Grove, RootTrees,
         MapPollard.Represents, MapPollard.Tidy, Pollard.Represents, Wanted, LayoutOf, MoreRows, Ascending, Accepts,
         StoredHashes, StrippedAll;
    HistoryIndependent(a, b);
    ghost var slots := SlotsAfter(a, |a|);
    GoodAfter(a);
    var stump0, pollard0, maps0, cache0, cached0 := Run(a, rows);
    var stump1, pollard1, maps1, cache1, cached1 := Run(b, rows);
    stumps, pollards, maps, caches := (stump0, stump1), (pollard0, pollard1), (maps0, maps1), (cache0, cache1);
    PollardNodes(pollard0, slots);
    PollardNodes(pollard1, slots);
    OneGrove(pollard0.Nodes(), pollard1.Nodes(), RootTrees(slots, 0));
    assert maps0.cachedLeaves.Keys == maps1.cachedLeaves.Keys;
    OneCache(maps0, maps1, slots);
    OneProof(slots, cached0, cache0.proof, cached1, cache1.proof);
  }

  lemma PollardNodes(pollard: Pollard, slots: seq<Hash>)
    requires pollard.Represents(slots)
    ensures Grove(pollard.Nodes(), RootTrees(slots, 0))
  {
    hide Grove, RootTrees;
  }
}
