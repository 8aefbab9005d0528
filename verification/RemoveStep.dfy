/** A cached proof, updated when leaves are deleted. */
module RemoveStep {
  import opened Hashes
  import opened Options
  import opened Positions
  import opened Geometry
  import opened Layouts
  import opened Shape
  import opened Entries
  import opened ProofPositions
  import opened Calculation
  import opened Forests
  import opened Honest
  import opened Deletion
  import opened ProofMoves
  import opened Sequential
  import opened DeTwin
  import opened Relocation
  import opened NewPositions
  import opened Slots
  import opened Stumps
  import opened ProofRemove
  import opened ProofFollows

  /** What is left of every node above a deleted leaf. */
  ghost predicate LeftAt(g: Layout, f: Forest, d: set<nat>, updated: seq<Entry>) {
    Sorted(updated) &&
    forall e: Entry :: e in updated <==> Touched(g, d, e.pos) && e.hash == Merkle(Remains(g, f, d, e.pos))
  }

  /** A block deletes leaves of a forest. */
  ghost predicate BlockOf(g: Layout, n: nat, f: Forest, blockTargets: seq<nat>) {
    && LayoutFor(g, TreeRows(n), n) && Compact(g, f) && NoDuplicates(blockTargets)
    && forall x :: x in Elems(blockTargets) ==> At(g, f, x).Leaf?
  }

  lemma {:induction false} BlockFacts(g: Layout, n: nat, f: Forest, blockTargets: seq<nat>, hashes: seq<Hash>,
                                      proof: Proof)
    requires BlockOf(g, n, f, blockTargets) && HonestProof(g, f, hashes, proof)
    ensures g.WellShaped() && g.m == Pow2(TreeRows(n)) && Deletable(g, f, Elems(blockTargets))
    ensures ValidTargets(g, Elems(blockTargets)) && ValidTargets(g, Elems(proof.targets))
    ensures ValidTargets(g, Elems(proof.targets) - Elems(blockTargets))
    ensures Stay(g, f, Elems(blockTargets), Elems(proof.targets) - Elems(blockTargets))
    ensures forall x :: x in Elems(proof.targets) ==> At(g, f, x).Leaf?
    ensures |proof.proof| == |PlanFor(g, Elems(proof.targets)).proof|
    ensures |hashes| == |proof.targets| && NoDuplicates(proof.targets)
  {
    hide At, PlanFor, SolidExcept, LayoutFor, Touched;
    LayoutFits(g, TreeRows(n), n);
    LeafDeletable(g, f, Elems(blockTargets));
    HonestTargets(g, f, hashes, proof);
    LeavesValid(g, f, Elems(blockTargets));
    LeavesValid(g, f, Elems(proof.targets));
    LeavesValid(g, f, Elems(proof.targets) - Elems(blockTargets));
  }

  /** The proof hashes with the positions they are for. */
  lemma {:induction false} ProofList(g: Layout, f: Forest, hashes: seq<Hash>, proof: Proof)
    requires Compact(g, f) && HonestProof(g, f, hashes, proof)
    ensures |PlanFor(g, Elems(proof.targets)).proof| == |proof.proof|
    ensures var z := SortEntries(Zip(PlanFor(g, Elems(proof.targets)).proof, proof.proof));
            && Sorted(z)
            && (forall e: Entry :: e in z <==>
                  IsProofPos(g, Elems(proof.targets), e.pos) && e.hash == Merkle(At(g, f, e.pos)))
  {
    hide SortEntries, At, PlanUpTo, Merkle, IsProofPos, SolidExcept;
    var c := Elems(proof.targets);
    var needed := PlanFor(g, c).proof;
    var z := Zip(needed, proof.proof);
    PlanMeaning(g, c, g.m);
    PlanAscending(g, c, g.m);
    SortFacts(z);
    forall e: Entry
      ensures e in z <==> IsProofPos(g, c, e.pos) && e.hash == Merkle(At(g, f, e.pos))
    {
      if e in z {
        var i :| 0 <= i < |z| && z[i] == e;
        assert needed[i] in needed;
      }
      if IsProofPos(g, c, e.pos) && e.hash == Merkle(At(g, f, e.pos)) {
        ProofPosBound(g, c, e.pos);
        var i :| 0 <= i < |needed| && needed[i] == e.pos;
        assert z[i] == e;
      }
    }
  }

  /** The positions of the sorted proof hashes are the planned ones. */
  lemma {:induction false} ProofListPositions(g: Layout, f: Forest, c: set<nat>, z: seq<Entry>)
    requires Sorted(z) && g.WellShaped()
    requires forall e: Entry :: e in z <==> IsProofPos(g, c, e.pos) && e.hash == Merkle(At(g, f, e.pos))
    ensures Ascending(PositionsOf(z)) && forall x: nat :: x in PositionsOf(z) <==> IsProofPos(g, c, x)
  {
    hide IsProofPos, Merkle, At, Layout.WellShaped;
    forall x: nat
      ensures x in PositionsOf(z) <==> IsProofPos(g, c, x)
    {
      if IsProofPos(g, c, x) {
        var e := Entry(x, Merkle(At(g, f, x)));
        assert e in z;
        var i :| 0 <= i < |z| && z[i] == e;
        assert PositionsOf(z)[i] == x;
      }
      if x in PositionsOf(z) {
        var i :| 0 <= i < |z| && PositionsOf(z)[i] == x;
        assert z[i] in z;
      }
    }
  }

  lemma {:induction false} PlanIsProofPos(g: Layout, s: set<nat>)
    requires g.WellShaped()
    ensures Ascending(PlanFor(g, s).proof) && forall x: nat :: x in PlanFor(g, s).proof <==> IsProofPos(g, s, x)
  {
    hide PlanUpTo, IsProofPos, Layout.WellShaped;
    PlanMeaning(g, s, g.m);
    PlanAscending(g, s, g.m);
    forall x: nat
      ensures x in PlanFor(g, s).proof <==> IsProofPos(g, s, x)
    {
      if IsProofPos(g, s, x) { ProofPosBound(g, s, x); }
    }
  }

  lemma {:induction false} UpdatedMap(g: Layout, f: Forest, d: set<nat>, updated: seq<Entry>)
    requires LeftAt(g, f, d, updated)
    ensures forall p: nat :: p in MapOf(updated) <==> Touched(g, d, p)
    ensures forall p: nat :: p in MapOf(updated) ==> MapOf(updated)[p] == Merkle(Remains(g, f, d, p))
  {
    hide MapOf, Touched, Merkle, Rem, At;
    MapOfFacts(updated);
    forall p: nat
      ensures p in MapOf(updated) <==> Touched(g, d, p)
      ensures p in MapOf(updated) ==> MapOf(updated)[p] == Merkle(Remains(g, f, d, p))
    {
      if Touched(g, d, p) { assert Entry(p, Merkle(Remains(g, f, d, p))) in updated; }
      if p in MapOf(updated) { assert Entry(p, MapOf(updated)[p]) in updated; }
    }
  }

  /** The leaves that stay. */
  lemma {:induction false} LeavesThatStay(g: Layout, f: Forest, c: set<nat>, d: set<nat>, all: seq<Entry>,
                                          rest: seq<Entry>)
    requires LeafList(g, f, c, all) && Sorted(rest) && forall e: Entry :: e in rest <==> e in all && e.pos !in d
    requires forall x :: x in c ==> At(g, f, x).Leaf?
    ensures LeafList(g, f, c - d, rest)
    ensures Ascending(PositionsOf(rest)) && Elems(PositionsOf(rest)) == c - d
  {
    hide At;
    LeafElems(g, f, rest, c - d);
  }

  /** The proof hashes for the leaves that stay: the old ones, where the block changed
      nothing; those reported by the block, where it did. */
  method RemainingHashes(oldProofs: seq<Entry>, needed: seq<nat>, sortedBlockTargets: seq<nat>, updated: seq<Entry>,
                         ghost g: Layout, ghost f: Forest, ghost c: set<nat>)
    returns (newProofs: seq<Entry>)
    requires var d := Elems(sortedBlockTargets);
             && Compact(g, f) && Deletable(g, f, d) && (forall x :: x in d || x in c ==> At(g, f, x).Leaf?)
             && Sorted(oldProofs) && Ascending(needed) && Ascending(sortedBlockTargets)
             && (forall e: Entry :: e in oldProofs <==> IsProofPos(g, c, e.pos) && e.hash == Merkle(At(g, f, e.pos)))
             && (forall x: nat :: x in needed <==> IsProofPos(g, c - d, x))
             && LeftAt(g, f, d, updated)
    ensures LeftList(g, f, Elems(sortedBlockTargets), c - Elems(sortedBlockTargets), newProofs)
  {
    hide At, Rem, Touched, SolidExcept, Merkle, IsProofPos, LeftHash, PickAll, Found, MapOf, SortPositions, LeftAt;
    ghost var d := Elems(sortedBlockTargets);
    ProofListPositions(g, f, c, oldProofs);
    SortPositionsFacts(PositionsOf(oldProofs));
    SortPositionsFacts(needed);
    LeftAtSorted(g, f, d, updated);
    var extraPos := SubtractAscending(SortPositions(PositionsOf(oldProofs)), needed);
    var kept := KeepNeeded(oldProofs, extraPos, updated);
    var missingPos := SubtractAscending(SortPositions(needed), PositionsOf(oldProofs));
    missingPos := SubtractAscending(missingPos, sortedBlockTargets);
    var found := AddMissing(missingPos, updated);
    newProofs := kept + found;
    UpdatedMap(g, f, d, updated);
    ElemsOf(needed, SortPositions(needed));
    ElemsOf(PositionsOf(oldProofs), SortPositions(PositionsOf(oldProofs)));
    assert RemoveLists(g, f, d, c, oldProofs, needed, extraPos, missingPos, MapOf(updated));
    NewProofDistinct(g, f, d, c, oldProofs, needed, extraPos, missingPos, MapOf(updated));
    forall e: Entry | e.hash != Empty
      ensures e in newProofs <==> IsProofPos(g, c - d, e.pos) && LeftHash(g, f, d, e)
    {
      NewProofHashes(g, f, d, c, oldProofs, needed, extraPos, missingPos, MapOf(updated), e);
    }
  }

  lemma LeftAtSorted(g: Layout, f: Forest, d: set<nat>, updated: seq<Entry>)
    requires LeftAt(g, f, d, updated)
    ensures Sorted(updated)
  {
  }

  lemma ElemsOf(a: seq<nat>, b: seq<nat>)
    requires Elems(a) == Elems(b)
    ensures forall x: nat :: x in a <==> x in b
  {
    forall x: nat
      ensures x in a <==> x in b
    {
      assert x in Elems(a) <==> x in Elems(b);
    }
  }

  /** Update a proof for cached leaves after a block of deletions.  The leaves that the
      block deleted are dropped; for the others the result is an honest proof in the forest
      after the deletion. */
  method UpdateProofRemove(blockTargets: seq<nat>, cachedHashes: seq<Hash>, proof: Proof, updated: seq<Entry>, n: nat,
                           ghost g: Layout, ghost f: Forest)
    returns (p: Proof, hashes: seq<Hash>)
    requires BlockOf(g, n, f, blockTargets) && HonestProof(g, f, cachedHashes, proof)
    requires LeftAt(g, f, Elems(blockTargets), updated)
    ensures HonestProof(g, Deleted(g, f, Elems(blockTargets)), hashes, p)
    ensures Ascending(p.targets)
    ensures Elems(p.targets) == Moved(g, Elems(blockTargets), Elems(proof.targets) - Elems(blockTargets))
  {
    hide HonestProof, LayoutFor, At, Rem, SolidExcept, IsProofPos, LeftHash, Moved, Merkle, SortPositions, SortEntries,
         PlanFor, LeftAt, Touched, Deleted, BlockOf, LeftList, SomeLeft, Layout.WellShaped, MoveAll, Maximal;
    BlockLayout(g, n, f, blockTargets);
    BlockFacts(g, n, f, blockTargets, cachedHashes, proof);
    ghost var d, c := Elems(blockTargets), Elems(proof.targets);
    var totalRows := TreeRows(n);
    SortPositionsFacts(blockTargets);
    var sortedBlockTargets := SortPositions(blockTargets);
    ElemsOf(blockTargets, sortedBlockTargets);
    SortedLeaves(g, f, cachedHashes, proof);
    ghost var all := SortEntries(Zip(proof.targets, cachedHashes));
    var targetsWithHash := SubtractSorted(SortEntries(Zip(proof.targets, cachedHashes)), sortedBlockTargets);
    LeavesThatStay(g, f, c, d, all, targetsWithHash);

    SortPositionsFacts(proof.targets);
    var proofPos, _ := ProofPositions.ProofPositions(SortPositions(proof.targets), n, totalRows, g);
    ProofList(g, f, cachedHashes, proof);
    var oldProofs := SortEntries(Zip(proofPos, proof.proof));
    PlanIsProofPos(g, c - d);
    var neededPos, _ := ProofPositions.ProofPositions(PositionsOf(targetsWithHash), n, totalRows, g);
    var newProofs := RemainingHashes(oldProofs, neededPos, sortedBlockTargets, updated, g, f, c);

    var largest := DeTwin.DeTwin(sortedBlockTargets, totalRows, g);
    assert Largest(g, d, largest);
    LeavesMovable(g, f, d, largest, c - d, targetsWithHash);
    LeftSome(g, f, d, c - d, newProofs);
    ProofsMovable(g, f, d, largest, c - d, newProofs);
    var leaves' := GetNewPositions(largest, targetsWithHash, n, true, g);
    var hashes' := GetNewPositions(largest, newProofs, n, false, g);
    ProofAfter(g, f, d, largest, c - d, targetsWithHash, newProofs, leaves', hashes');
    p, hashes := Proof(PositionsOf(leaves'), HashesOf(hashes')), HashesOf(leaves');
  }

  lemma {:induction false} BlockLayout(g: Layout, n: nat, f: Forest, blockTargets: seq<nat>)
    requires BlockOf(g, n, f, blockTargets)
    ensures LayoutFor(g, TreeRows(n), n) && Compact(g, f) && NoDuplicates(blockTargets)
    ensures forall x :: x in Elems(blockTargets) ==> At(g, f, x).Leaf?
  {
  }
}
