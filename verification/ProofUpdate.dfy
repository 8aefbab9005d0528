/** A cached proof kept up to date, block by block. */
module ProofUpdate {
  import opened Positions
  import opened Hashes
  import opened Options
  import opened Geometry
  import opened Layouts
  import opened Shape
  import opened Entries
  import opened Calculation
  import opened Forests
  import opened Honest
  import opened Deletion
  import opened ProofMoves
  import opened Slots
  import opened Uniqueness
  import opened Additions
  import opened Stumps
  import opened StumpAdd
  import opened UpdateData
  import opened StumpState
  import opened Translation
  import opened ProofCarried
  import opened RemoveStep
  import opened AddStep

  /** There is a leaf with this hash at a target. */
  ghost predicate LeafIn(g: Layout, f: Forest, s: set<nat>, x: nat, h: Hash) {
    x in s && At(g, f, x) == Leaf(h)
  }

  lemma {:induction false} HashesOfTargets(g: Layout, f: Forest, hashes: seq<Hash>, proof: Proof, h: Hash)
    requires HonestProof(g, f, hashes, proof)
    ensures h in hashes <==> exists x: nat :: LeafIn(g, f, Elems(proof.targets), x, h)
  {
    hide At, PlanFor;
    if h in hashes {
      var i :| 0 <= i < |hashes| && hashes[i] == h;
      assert LeafIn(g, f, Elems(proof.targets), proof.targets[i], h);
    }
    if exists x: nat :: LeafIn(g, f, Elems(proof.targets), x, h) {
      var x: nat :| LeafIn(g, f, Elems(proof.targets), x, h);
      var i :| 0 <= i < |proof.targets| && proof.targets[i] == x;
      assert hashes[i] == h;
    }
  }

  /** Moving leaves keeps their hashes. */
  lemma {:induction false} MovedHashes(g: Layout, f: Forest, d: set<nat>, s: set<nat>, h: Hash)
    requires Deletable(g, f, d) && Stay(g, f, d, s)
    ensures (exists x: nat :: LeafIn(g, f, s, x, h)) <==>
            (exists y: nat :: LeafIn(g, Deleted(g, f, d), Moved(g, d, s), y, h))
  {
    hide At, Deleted, NewPos, Deletable, Stay;
    StayMoved(g, f, d, s);
    if exists x: nat :: LeafIn(g, f, s, x, h) {
      var x: nat :| LeafIn(g, f, s, x, h);
      assert LeafIn(g, Deleted(g, f, d), Moved(g, d, s), NewPos(g, d, x), h);
    }
    if exists y: nat :: LeafIn(g, Deleted(g, f, d), Moved(g, d, s), y, h) {
      var y: nat :| LeafIn(g, Deleted(g, f, d), Moved(g, d, s), y, h);
      var x :| x in s && NewPos(g, d, x) == y;
      assert LeafIn(g, f, s, x, h);
    }
  }

  /** After a deletion the hashes left are those that were not deleted. */
  lemma {:induction false} HashesKept(g: Layout, slots: seq<Hash>, dels: set<Hash>, block: seq<nat>, hashes: seq<Hash>,
                                      proof: Proof, hashes': seq<Hash>, proof': Proof, h: Hash)
    requires g.WellShaped() && LeafPositions(g, ForestOf(g, slots), Elems(block), dels)
    requires HonestProof(g, ForestOf(g, slots), hashes, proof)
    requires HonestProof(g, ForestOf(g, Erase(slots, dels)), hashes', proof')
    requires Elems(proof'.targets) == Moved(g, Elems(block), Elems(proof.targets) - Elems(block))
    ensures h in hashes' <==> h in hashes && h !in dels
  {
    hide At, Deleted, NewPos, Deletable, HonestProof, ForestOf, Moved, Erase, Layout.WellShaped;
    var f, d, c := ForestOf(g, slots), Elems(block), Elems(proof.targets);
    DeletedSlots(g, slots, d, dels);
    HonestTargets(g, f, hashes, proof);
    HashesOfTargets(g, f, hashes, proof, h);
    HashesOfTargets(g, ForestOf(g, Erase(slots, dels)), hashes', proof', h);
    assert Stay(g, f, d, c - d);
    MovedHashes(g, f, d, c - d, h);
    if exists x: nat :: LeafIn(g, f, c - d, x, h) {
      var x: nat :| LeafIn(g, f, c - d, x, h);
      assert LeafIn(g, f, c, x, h);
    }
    if h !in dels && exists x: nat :: LeafIn(g, f, c, x, h) {
      var x: nat :| LeafIn(g, f, c, x, h);
      assert LeafIn(g, f, c - d, x, h);
    }
  }

  /** After an addition the hashes are the old ones and those remembered. */
  lemma {:induction false} HashesCarried(g0: Layout, o: Layout, g: Layout, before: seq<Hash>, adds: seq<Hash>,
                                         remembers: seq<nat>, hashes: seq<Hash>, proof: Proof, hashes': seq<Hash>,
                                         proof': Proof, h: Hash)
    requires AddTo(g0, o, g, before, adds) && HonestProof(g0, ForestOf(g0, before), hashes, proof)
    requires HonestProof(g, ForestOf(g, before + adds), hashes', proof')
    requires Elems(proof'.targets) == TargetsAfter(g0, o, g, before, adds, Elems(proof.targets), remembers)
    ensures h in hashes' <==> h in hashes || exists i: nat :: PickedHash(adds, remembers, i, h)
  {
    hide At, Deleted, NewPos, Deletable, HonestProof, ForestOf, Moved, Layout.WellShaped, Stay, AssembledForest,
         WrittenOver, Grows, AddTo, SameForest, Renumber, PickedHash, RememberedLeaves, LayoutFor, Compact, Image;
    var c, t := Elems(proof.targets), Renumber(g0, before, adds);
    var s, n := Image(t, c), RememberedLeaves(before, adds, remembers);
    var v, w := AssembledForest(o, g, before + adds), WrittenOver(o, g, before + adds);
    AddShapes(g0, o, g, before, adds);
    OldLeaves(g0, o, g, before, adds, hashes, proof);
    NewRemembered(before, adds, remembers);
    assert Carried(o, g, before, adds, s, n);
    CarriedStay(o, g, before, adds, s, n);
    AssembledDeletable(o, g, before, adds);
    AddedForest(o, g, before, adds);
    HashesOfTargets(g0, ForestOf(g0, before), hashes, proof, h);
    HashesOfTargets(g, ForestOf(g, before + adds), hashes', proof', h);
    MovedHashes(g, v, w, s + n, h);
    LeafInUnion(g, v, s, n, h);
    OldHashes(g0, o, g, before, adds, hashes, proof, h);
    NewHashes(o, g, before, adds, remembers, h);
  }

  lemma {:induction false} LeafInUnion(g: Layout, f: Forest, s: set<nat>, n: set<nat>, h: Hash)
    ensures (exists x: nat :: LeafIn(g, f, s + n, x, h)) <==>
            (exists x: nat :: LeafIn(g, f, s, x, h)) || (exists x: nat :: LeafIn(g, f, n, x, h))
  {
    hide At;
    if exists x: nat :: LeafIn(g, f, s + n, x, h) {
      var x: nat :| LeafIn(g, f, s + n, x, h);
      assert LeafIn(g, f, s, x, h) || LeafIn(g, f, n, x, h);
    }
    if exists x: nat :: LeafIn(g, f, s, x, h) {
      var x: nat :| LeafIn(g, f, s, x, h);
      assert LeafIn(g, f, s + n, x, h);
    }
    if exists x: nat :: LeafIn(g, f, n, x, h) {
      var x: nat :| LeafIn(g, f, n, x, h);
      assert LeafIn(g, f, s + n, x, h);
    }
  }

  /** The leaves of the proof, renumbered. */
  lemma {:induction false} OldLeaves(g0: Layout, o: Layout, g: Layout, before: seq<Hash>, adds: seq<Hash>,
                                     hashes: seq<Hash>, proof: Proof)
    requires AddTo(g0, o, g, before, adds) && HonestProof(g0, ForestOf(g0, before), hashes, proof)
    ensures forall x :: x in Image(Renumber(g0, before, adds), Elems(proof.targets)) ==>
              x in o.nodes && At(o, ForestOf(o, before), x).Leaf?
  {
    hide At, HonestProof, ForestOf, AddTo, SameForest, Renumber, LayoutFor, Grows, Compact;
    var c, t := Elems(proof.targets), Renumber(g0, before, adds);
    AddShapes(g0, o, g, before, adds);
    HonestTargets(g0, ForestOf(g0, before), hashes, proof);
    RenumberIs(g0, o, g, before, adds);
    SameShapes(g0, o, t);
    forall x | x in Image(t, c)
      ensures x in o.nodes && At(o, ForestOf(o, before), x).Leaf?
    {
      var p :| p in c && p in t && t[p] == x;
      AtSame(g0, o, t, before, p);
      SameNode(g0, o, t, p);
    }
  }

  lemma RenumberIs(g0: Layout, o: Layout, g: Layout, before: seq<Hash>, adds: seq<Hash>)
    requires SameForest(g0, o, Translated(g0, TreeRows(|before|), TreeRows(|before| + |adds|)))
    ensures SameForest(g0, o, Renumber(g0, before, adds))
  {
    hide SameForest, Translated;
  }

  lemma {:induction false} OldHashes(g0: Layout, o: Layout, g: Layout, before: seq<Hash>, adds: seq<Hash>,
                                     hashes: seq<Hash>, proof: Proof, h: Hash)
    requires AddTo(g0, o, g, before, adds) && HonestProof(g0, ForestOf(g0, before), hashes, proof)
    ensures (exists x: nat :: LeafIn(g0, ForestOf(g0, before), Elems(proof.targets), x, h)) <==>
            (exists x: nat :: LeafIn(g, AssembledForest(o, g, before + adds),
                                     Image(Renumber(g0, before, adds), Elems(proof.targets)), x, h))
  {
    hide At, HonestProof, ForestOf, AddTo, SameForest, Renumber, LayoutFor, Grows, AssembledForest, Compact;
    var c, t := Elems(proof.targets), Renumber(g0, before, adds);
    var f0, v := ForestOf(g0, before), AssembledForest(o, g, before + adds);
    AddShapes(g0, o, g, before, adds);
    HonestTargets(g0, f0, hashes, proof);
    ProofShape(g0, |before|, f0, hashes, proof);
    OldLeaves(g0, o, g, before, adds, hashes, proof);
    RenumberIs(g0, o, g, before, adds);
    SameShapes(g0, o, t);
    if exists x: nat :: LeafIn(g0, f0, c, x, h) {
      var x: nat :| LeafIn(g0, f0, c, x, h);
      AtSame(g0, o, t, before, x);
      assert t[x] in Image(t, c);
      AtOld(o, g, before, adds, t[x]);
      assert LeafIn(g, v, Image(t, c), t[x], h);
    }
    if exists x: nat :: LeafIn(g, v, Image(t, c), x, h) {
      var x: nat :| LeafIn(g, v, Image(t, c), x, h);
      var p :| p in c && p in t && t[p] == x;
      AtSame(g0, o, t, before, p);
      AtOld(o, g, before, adds, x);
      assert LeafIn(g0, f0, c, p, h);
    }
  }

  lemma NewRemembered(before: seq<Hash>, adds: seq<Hash>, remembers: seq<nat>)
    ensures NewLeaves(before, adds, RememberedLeaves(before, adds, remembers))
  {
    hide Remembered;
  }

  lemma {:induction false} NewHashes(o: Layout, g: Layout, before: seq<Hash>, adds: seq<Hash>, remembers: seq<nat>,
                                     h: Hash)
    requires Grows(o, g, before, adds) && |before| + |adds| <= g.m
    ensures (exists x: nat :: LeafIn(g, AssembledForest(o, g, before + adds),
                                     RememberedLeaves(before, adds, remembers), x, h)) <==>
            exists i: nat :: PickedHash(adds, remembers, i, h)
  {
    hide At, AssembledForest, Grows, Remembered, Collapse;
    var v, n := AssembledForest(o, g, before + adds), RememberedLeaves(before, adds, remembers);
    if exists x: nat :: LeafIn(g, v, n, x, h) {
      var x: nat :| LeafIn(g, v, n, x, h);
      NewLeafAt(o, g, before, adds, x);
      assert PickedHash(adds, remembers, x - |before|, h);
    }
    if exists i: nat :: PickedHash(adds, remembers, i, h) {
      var i: nat :| PickedHash(adds, remembers, i, h);
      NewLeafAt(o, g, before, adds, |before| + i);
      assert |before| + i in n;
      assert LeafIn(g, v, n, |before| + i, h);
    }
  }

  /** A block: leaves to delete with the proof for them, and leaves to add. */
  datatype Block = Block(dels: seq<Hash>, proof: Proof, adds: seq<Hash>, remembers: seq<nat>)

  /** The slots after a block. */
  ghost function After(slots: seq<Hash>, b: Block): seq<Hash> {
    Erase(slots, HashSet(b.dels)) + b.adds
  }

  /** A block that can be applied: an honest proof for what it deletes, and leaves to add that
      can be told apart from all others. */
  ghost predicate Applies(slots: seq<Hash>, b: Block) {
    && CollisionFree() && GoodSlots(slots) && GoodSlots(After(slots, b))
    && Proves(slots, b.dels, b.proof) && forall i :: 0 <= i < |b.adds| ==> b.adds[i] != Empty
  }

  /** The hashes that are cached after a block. */
  ghost predicate Caches(before: seq<Hash>, b: Block, after: seq<Hash>) {
    forall h :: h in after <==> (h in before && h !in b.dels) || exists i: nat :: PickedHash(b.adds, b.remembers, i, h)
  }

  lemma {:induction false} RemoveReady(slots: seq<Hash>, b: Block, r: Report)
    requires Applies(slots, b) && Truthful(r, slots, HashSet(b.dels), b.adds, Elems(b.proof.targets))
    ensures var g0 := ShapeOf(|slots|); var f := ForestOf(g0, slots);
            && BlockOf(g0, |slots|, f, b.proof.targets) && LeftAt(g0, f, Elems(b.proof.targets), r.newDel)
            && Deleted(g0, f, Elems(b.proof.targets)) == ForestOf(g0, Erase(slots, HashSet(b.dels)))
            && LeafPositions(g0, f, Elems(b.proof.targets), HashSet(b.dels)) && g0.WellShaped() &&
               r.prevNumLeaves == |slots|
  {
    hide At, ForestOf, Deleted, LayoutFor, ShapeOf, ShapeIn, Erase, CollisionFree, GoodSlots, PlanFor, Touched, Merkle,
         Rem, AllTrue, Reported, WrittenOver, HashSet, Deletable, SolidExcept;
    var g0 := ShapeOf(|slots|);
    Shapes(|slots|, 0);
    LayoutFits(g0, TreeRows(|slots|), |slots|);
    HonestPositions(g0, slots, b.dels, b.proof);
    DeletedSlots(g0, slots, Elems(b.proof.targets), HashSet(b.dels));
    HonestTargets(g0, ForestOf(g0, slots), b.dels, b.proof);
  }

  lemma {:induction false} AddReady(slots: seq<Hash>, b: Block, r: Report)
    requires Applies(slots, b) && Truthful(r, slots, HashSet(b.dels), b.adds, Elems(b.proof.targets))
    ensures var n, m := |slots|, |slots| + |b.adds|;
            && AddTo(ShapeOf(n), ShapeIn(m, n), ShapeOf(m), Erase(slots, HashSet(b.dels)), b.adds)
            && AddReport(ShapeIn(m, n), ShapeOf(m), After(slots, b), r.newAdd, r.toDestroy)
            && |Erase(slots, HashSet(b.dels))| == n && |After(slots, b)| == m
  {
    hide At, ForestOf, LayoutFor, ShapeOf, ShapeIn, CollisionFree, GoodSlots, Touched, Merkle, Rem, AllTrue, Reported,
         WrittenOver, HashSet, Proves;
    Shapes(|slots|, |b.adds|);
  }

  class CachedProof {
    var proof: Proof

    constructor ()
      ensures proof == Proof([], [])
    {
      proof := Proof([], []);
    }

    /** Drop the leaves a block deleted, and move the others to where they are now. */
    method UpdateRemove(blockTargets: seq<nat>, cachedHashes: seq<Hash>, updated: seq<Entry>, n: nat, ghost g: Layout,
                        ghost f: Forest)
      returns (hashes: seq<Hash>)
      requires BlockOf(g, n, f, blockTargets) && HonestProof(g, f, cachedHashes, proof)
      requires LeftAt(g, f, Elems(blockTargets), updated)
      modifies this
      ensures HonestProof(g, Deleted(g, f, Elems(blockTargets)), hashes, proof) && Ascending(proof.targets)
      ensures Elems(proof.targets) == Moved(g, Elems(blockTargets), Elems(old(proof).targets) - Elems(blockTargets))
    {
      hide *;
      proof, hashes := UpdateProofRemove(blockTargets, cachedHashes, proof, updated, n, g, f);
    }

    /** Move the leaves past the empty roots a block wrote over, and remember some of its leaves. */
    method UpdateAdd(adds: seq<Hash>, cachedHashes: seq<Hash>, remembers: seq<nat>, newNodes: seq<Entry>, n: nat,
                     toDestroy: seq<nat>, ghost g0: Layout, ghost o: Layout, ghost g: Layout, ghost before: seq<Hash>)
      returns (hashes: seq<Hash>)
      requires AddTo(g0, o, g, before, adds) && n == |before|
      requires HonestProof(g0, ForestOf(g0, before), cachedHashes, proof)
      requires AddReport(o, g, before + adds, newNodes, toDestroy)
      modifies this
      ensures HonestProof(g, ForestOf(g, before + adds), hashes, proof) && Ascending(proof.targets)
      ensures Elems(proof.targets) == TargetsAfter(g0, o, g, before, adds, Elems(old(proof).targets), remembers)
    {
      hide *;
      proof, hashes := UpdateProofAdd(adds, cachedHashes, proof, remembers, newNodes, n, toDestroy, g0, o, g, before);
    }

    /** Follow the accumulator through a block.  A proof that was honest before it is honest after
        it, for the cached leaves that were not deleted and those of the new ones remembered, in ascending order. */
    method Update(cachedHashes: seq<Hash>, b: Block, data: Report, ghost slots: seq<Hash>) returns (hashes: seq<Hash>)
      requires Applies(slots, b) && Proves(slots, cachedHashes, proof)
      requires Truthful(data, slots, HashSet(b.dels), b.adds, Elems(b.proof.targets))
      modifies this
      ensures Proves(After(slots, b), hashes, proof) && Ascending(proof.targets)
      ensures Caches(cachedHashes, b, hashes)
    {
      hide Truthful, HonestProof, BlockOf, LeftAt, ShapeOf, ShapeIn, ForestOf, Deleted, AddTo, AddReport, Moved,
           TargetsAfter, LeafPositions, CollisionFree, GoodSlots, PickedHash, HashSet, Erase, Layout.WellShaped;
      ghost var n, m := |slots|, |slots| + |b.adds|;
      ghost var g0, o, g, before := ShapeOf(n), ShapeIn(m, n), ShapeOf(m), Erase(slots, HashSet(b.dels));
      ghost var proof0 := proof;
      RemoveReady(slots, b, data);
      AddReady(slots, b, data);
      var kept := UpdateRemove(b.proof.targets, cachedHashes, data.newDel, data.prevNumLeaves, g0, ForestOf(g0, slots));
      ghost var proof1 := proof;
      hashes := UpdateAdd(b.adds, kept, b.remembers, data.newAdd, data.prevNumLeaves, data.toDestroy, g0, o, g, before);
      forall h
        ensures h in hashes <==>
                  (h in cachedHashes && h !in b.dels) || exists i: nat :: PickedHash(b.adds, b.remembers, i, h)
      {
        HashesKept(g0, slots, HashSet(b.dels), b.proof.targets, cachedHashes, proof0, kept, proof1, h);
        HashesCarried(g0, o, g, before, b.adds, b.remembers, kept, proof1, hashes, proof, h);
        InHashSet(b.dels, h);
      }
    }
  }

  lemma InHashSet(hashes: seq<Hash>, h: Hash)
    ensures h in HashSet(hashes) <==> h in hashes
  {
  }
}
