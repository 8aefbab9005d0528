/** The stump as an object: its roots are replaced in place. */
module StumpState {
  import opened Hashes
  import opened Options
  import opened Positions
  import opened Geometry
  import opened Layouts
  import opened Shape
  import opened Entries
  import opened Calculation
  import opened Forests
  import opened Honest
  import opened Deletion
  import opened ProofMoves
  import opened Slots
  import opened Uniqueness
  import opened Additions
  import opened Destroyed
  import opened Carry
  import opened Stumps
  import opened StumpAdd
  import opened UpdateData
  import opened Soundness

  /** What an update of the stump reports, for updating a cached proof. */
  datatype Report = Report(toDestroy: seq<nat>, prevNumLeaves: nat, newDel: seq<Entry>, newAdd: seq<Entry>)

  lemma {:induction false} RootTreesOk(slots: seq<Hash>, h: nat)
    ensures forall i :: 0 <= i < |RootTrees(slots, h)| ==> LeavesOk(RootTrees(slots, h)[i])
    decreases Shr(|slots|, h)
  {
    var k := Shr(|slots|, h);
    if k > 0 {
      RootTreesOk(slots, h + 1);
      if k % 2 == 1 { BlockOk(slots, h, k - 1); }
    }
  }

  /** A root hash is empty exactly when its tree is. */
  lemma {:induction false} RootsSameEmpty(slots: seq<Hash>)
    ensures SameEmpty(RootHashes(slots), RootTrees(slots, 0))
  {
    hide RootTrees;
    RootTreesOk(slots, 0);
    forall i | 0 <= i < |RootTrees(slots, 0)|
      ensures RootHashes(slots)[i] == Empty <==> RootTrees(slots, 0)[i].Nil?
    {
      MerkleEmpty(RootTrees(slots, 0)[i]);
    }
  }

  lemma MatchesDistinct(s: seq<nat>, candidates: seq<Hash>, roots: seq<Hash>)
    requires Matches(s, candidates, roots)
    ensures |s| == |candidates| && forall i :: 0 <= i < |s| ==> s[i] < |roots|
    ensures forall i, j :: 0 <= i < j < |s| ==> s[i] != s[j]
  {
  }

  /** Write the new hashes at the indexes. */
  method ReplaceRoots(before: seq<Hash>, indexes: seq<nat>, with: seq<Hash>) returns (roots: seq<Hash>)
    requires |indexes| == |with| && forall i :: 0 <= i < |indexes| ==> indexes[i] < |before|
    requires forall i, j :: 0 <= i < j < |indexes| ==> indexes[i] != indexes[j]
    ensures Overwritten(before, indexes, with, roots)
  {
    roots := before;
    for i := 0 to |indexes|
      invariant |roots| == |before|
      invariant forall j :: 0 <= j < i ==> roots[indexes[j]] == with[j]
      invariant forall x :: 0 <= x < |roots| && x !in indexes[..i] ==> roots[x] == before[x]
    {
      assert indexes[..i + 1] == indexes[..i] + [indexes[i]];
      roots := roots[indexes[i] := with[i]];
    }
    assert indexes[..|indexes|] == indexes;
  }

  /** There is not a hash for each target, or the hashes the proof leads to are not those of roots, in order. */
  ghost predicate Refused(g: Layout, n: nat, hashes: seq<Hash>, proof: Proof, roots: seq<Hash>)
    requires |hashes| == |proof.targets| ==> Calculable(g, n, Some(hashes), proof)
  {
    |hashes| != |proof.targets| || !exists x: seq<nat> :: Matches(x, Candidates(g, n, Some(hashes), proof), roots)
  }

  lemma NotRefused(g: Layout, n: nat, hashes: seq<Hash>, proof: Proof, roots: seq<Hash>, s: seq<nat>)
    requires |hashes| == |proof.targets| && Calculable(g, n, Some(hashes), proof) &&
             Matches(s, Candidates(g, n, Some(hashes), proof), roots)
    ensures !Refused(g, n, hashes, proof, roots)
  {
    hide Matches, Candidates, Calculable;
  }

  class Stump {
    var roots: seq<Hash>
    var numLeaves: nat

    constructor ()
      ensures Represents([])
    {
      roots, numLeaves := [], 0;
    }

    /** The roots are those of the slots. */
    ghost predicate Represents(slots: seq<Hash>)
      reads this
    {
      numLeaves == |slots| && roots == RootHashes(slots)
    }

    /** Check the proof, and replace the roots above its leaves by what is left of them. */
    method Del(delHashes: seq<Hash>, proof: Proof, ghost g: Layout) returns (r: Option<seq<Entry>>, ghost s: seq<nat>)
      requires |delHashes| == |proof.targets| ==> Calculable(g, numLeaves, Some(delHashes), proof)
      modifies this`roots
      ensures r.None? ==> roots == old(roots)
      ensures r.None? <==> Refused(g, numLeaves, delHashes, proof, old(roots))
      ensures r.Some? ==>
                && |delHashes| == |proof.targets| && Calculable(g, numLeaves, None, proof)
                && Matches(s, Candidates(g, numLeaves, Some(delHashes), proof), old(roots))
                && Overwritten(old(roots), s, Candidates(g, numLeaves, None, proof), roots)
      ensures r.Some? && WellFormed(g, numLeaves, None, proof) ==>
                && Sorted(r.value)
                && (forall e :: e in r.value <==>
                      Touched(g, Elems(proof.targets), e.pos) &&
                      e.hash == Calc(g, TargetMap(None, proof), GivenMap(g, proof), e.pos))
    {
      hide Run, Touched, Calc, LayoutFor, TargetMap, GivenMap, Matches, Overwritten, PlanFor, Calculable, WellFormed,
           Sorted;
      s := [];
      var indexes := Verify(roots, numLeaves, delHashes, proof, g);
      if indexes.None? {
        return None, s;
      }
      s := indexes.value;
      NotRefused(g, numLeaves, delHashes, proof, roots, s);
      DelFacts(g, numLeaves, delHashes, proof);
      var nodes, modified := CalculateHashes(numLeaves, None, proof, g);
      if |modified| != |indexes.value| {
        return None, s;
      }
      MatchesDistinct(s, Candidates(g, numLeaves, Some(delHashes), proof), roots);
      roots := ReplaceRoots(roots, indexes.value, modified);
      r := Some(nodes);
    }

    /** Add leaves: roots are hashed together like the digits of a binary counter carry. */
    method Add(adds: seq<Hash>, ghost before: seq<Hash>, ghost o: Layout, ghost g: Layout)
      returns (updated: seq<Entry>, toDestroy: seq<nat>)
      requires Represents(before) && Adding(o, g, before, adds, TreeRows(numLeaves + |adds|))
      modifies this
      ensures Represents(before + adds)
      ensures Ascending(toDestroy) && forall p: nat :: p in toDestroy <==> p in WrittenOver(o, g, before + adds)
      ensures Sorted(updated)
      ensures GoodSlots(before + adds) && CollisionFree() ==>
                && AllTrue(g, before + adds, updated) && Reported(o, g, before + adds, updated)
                && OnlyReported(o, g, before + adds, updated)
    {
      hide LayoutFor, RootTrees, WrittenOver, NewPos, SubTree, AllTrue, Reported, GoodSlots, CollisionFree, Collapse,
           RootHashes, LayoutOf, Sorted, SameEmpty, TreeRows, SubTreeAt, Grows;
      ghost var n := |before|;
      var afterRows := TreeRows(numLeaves + |adds|);
      RootsSameEmpty(before);
      toDestroy := RootsToDestroy(|adds|, numLeaves, roots, before, adds, o, g);
      var subTrees: seq<seq<Entry>> := [];
      assert before + adds[..0] == before;
      for i := 0 to |adds|
        invariant Represents(before + adds[..i])
        invariant |subTrees| == i
        invariant forall j :: 0 <= j < i ==>
                    Sorted(subTrees[j]) && SubTreeAt(g, before, adds, afterRows, j, subTrees[j])
      {
        ghost var now, rest, oi := before + adds[..i], adds[i..], LayoutOf(afterRows, n + i);
        Midway(g, before, adds, afterRows, i);
        RootsSameEmpty(now);
        assert numLeaves + |rest| == n + |adds|;
        var pos := AddPosition(numLeaves, |adds| - i, roots, now, rest, oi, g);
        var sub;
        roots, sub := AddOne(roots, numLeaves, adds[i], pos, afterRows, now, rest, oi, g);
        SubTreeSorted(oi, g, now, rest, afterRows, sub);
        SubTreeIs(g, before, adds, afterRows, i, sub);
        subTrees := subTrees + [sub];
        numLeaves := numLeaves + 1;
        assert before + adds[..i + 1] == now + [adds[i]];
      }
      assert before + adds[..|adds|] == before + adds;
      updated := MergeSubTrees(subTrees, g, before, adds, afterRows);
      if GoodSlots(before + adds) && CollisionFree() {
        AllReported(o, g, before, adds, afterRows, subTrees, updated);
        NothingElse(o, g, before, adds, afterRows, subTrees, updated);
      }
    }

    /** Delete, then add.  A proof is refused, and nothing changes, exactly when the hashes it leads to are not those of
        roots.  Otherwise every hash it names is that of a subtree, and all that is below these subtrees is deleted,
        wherever the proof says they are; leaf hashes are those of leaves, and then exactly these leaves are deleted.
        What is reported of the additions is exact; an honest proof is not refused, and what is reported of its
        deletions then is true. */
    method Update(delHashes: seq<Hash>, addHashes: seq<Hash>, proof: Proof, ghost slots: seq<Hash>)
      returns (r: Option<Report>)
      requires Represents(slots) && GoodSlots(slots) && CollisionFree()
      requires forall i :: 0 <= i < |addHashes| ==> addHashes[i] != Empty
      requires |delHashes| == |proof.targets| ==> Calculable(ShapeOf(numLeaves), numLeaves, Some(delHashes), proof)
      modifies this
      ensures r.None? <==> Refused(ShapeOf(|slots|), |slots|, delHashes, proof, RootHashes(slots))
      ensures r.None? ==> Represents(slots)
      ensures r.Some? ==> Represents(Erase(slots, CoveredBy(ShapeOf(|slots|), slots, HashSet(delHashes))) + addHashes)
      ensures r.Some? ==> forall i :: 0 <= i < |delHashes| && delHashes[i] != Empty ==>
              InTrees(ShapeOf(|slots|), slots, delHashes[i])
      ensures r.Some? && (forall i :: 0 <= i < |delHashes| ==> IsLeafHash(delHashes[i])) ==>
                Represents(Erase(slots, HashSet(delHashes)) + addHashes) && forall i :: 0 <= i < |delHashes| ==>
                    delHashes[i] in slots
      ensures r.Some? ==>
                AddsTold(r.value, |slots|,
                         Erase(slots, CoveredBy(ShapeOf(|slots|), slots, HashSet(delHashes))) + addHashes)
      ensures r.Some? && WellFormed(ShapeOf(|slots|), |slots|, None, proof) ==>
                && Sorted(r.value.newDel)
                && (forall e :: e in r.value.newDel <==>
                      Touched(ShapeOf(|slots|), Elems(proof.targets), e.pos) &&
                      e.hash == Calc(ShapeOf(|slots|), TargetMap(None, proof), GivenMap(ShapeOf(|slots|), proof),
                                     e.pos))
      ensures Proves(slots, delHashes, proof) ==>
                r.Some? && Truthful(r.value, slots, HashSet(delHashes), addHashes, Elems(proof.targets))
    {
      hide GoodSlots, CollisionFree, LayoutFor, RootHashes, HonestProof, Matches, Overwritten, Touched, Calc, TargetMap,
           IsLeafHash, GivenMap, WellFormed, Candidates, ForestOf, AllTrue, Reported, OnlyReported, WrittenOver,
           Truthful, ShapeOf, ShapeIn, Accepted, Sorted, Calculable, CoveredBy, InTrees, Erase, Refused;
      ghost var n, m := |slots|, |slots| + |addHashes|;
      ghost var g0, o, g := ShapeOf(n), ShapeIn(m, n), ShapeOf(m);
      ghost var before := Erase(slots, CoveredBy(g0, slots, HashSet(delHashes)));
      EraseCount(slots, CoveredBy(g0, slots, HashSet(delHashes)));
      Shapes(n, |addHashes|);
      if HonestProof(g0, ForestOf(g0, slots), delHashes, proof) {
        UpdateHonest(g0, slots, delHashes, proof);
        HonestHashes(g0, slots, delHashes, proof);
      }
      if forall i :: 0 <= i < |delHashes| ==> IsLeafHash(delHashes[i]) { NamedLeaves(g0, slots, delHashes); }
      var newDel, s := Del(delHashes, proof, g0);
      if newDel.None? {
        return None;
      }
      NowAccepted(g0, slots, delHashes, proof, s);
      DeletedRoots(g0, slots, delHashes, proof, s, roots);
      Sound(g0, slots, delHashes, proof, s);
      var prevNumLeaves := numLeaves;
      var newAdd, toDestroy := Add(addHashes, before, o, g);
      r := Some(Report(toDestroy, prevNumLeaves, newDel.value, newAdd));
      if HonestProof(g0, ForestOf(g0, slots), delHashes, proof) {
        UpdateTruth(g0, slots, delHashes, addHashes, proof, r.value);
      }
    }
  }

  /** Leaf hashes name leaves. */
  lemma {:induction false} NamedLeaves(g: Layout, slots: seq<Hash>, hashes: seq<Hash>)
    requires LayoutFor(g, TreeRows(|slots|), |slots|) && GoodSlots(slots) && forall i :: 0 <= i < |hashes| ==>
             IsLeafHash(hashes[i])
    ensures Erase(slots, CoveredBy(g, slots, HashSet(hashes))) == Erase(slots, HashSet(hashes))
  {
    hide LayoutFor, GoodSlots, IsLeafHash, Erase, CoveredBy;
    ErasesLeaves(g, slots, HashSet(hashes));
  }

  /** The layout of `n` leaves. */
  ghost function ShapeOf(n: nat): Layout {
    LayoutOf(TreeRows(n), n)
  }

  /** The layout of `n` leaves in the rows that `m` leaves need. */
  ghost function ShapeIn(m: nat, n: nat): Layout {
    LayoutOf(TreeRows(m), n)
  }

  lemma {:induction false} Shapes(n: nat, k: nat)
    ensures LayoutFor(ShapeOf(n), TreeRows(n), n) && LayoutFor(ShapeOf(n + k), TreeRows(n + k), n + k)
    ensures LayoutFor(ShapeIn(n + k, n), TreeRows(n + k), n)
  {
    hide LayoutFor, LayoutOf;
    LayoutOfFacts(TreeRows(n), n);
    LayoutOfFacts(TreeRows(n + k), n + k);
    LayoutOfFacts(TreeRows(n + k), n);
  }

  /** The proof is an honest proof for these leaves of the accumulator. */
  ghost predicate Proves(slots: seq<Hash>, hashes: seq<Hash>, proof: Proof) {
    HonestProof(ShapeOf(|slots|), ForestOf(ShapeOf(|slots|), slots), hashes, proof)
  }

  lemma NowAccepted(g: Layout, slots: seq<Hash>, hashes: seq<Hash>, proof: Proof, s: seq<nat>)
    requires CollisionFree() && GoodSlots(slots) && |hashes| == |proof.targets| &&
             Calculable(g, |slots|, Some(hashes), proof)
    requires Matches(s, Candidates(g, |slots|, Some(hashes), proof), RootHashes(slots))
    ensures Accepted(g, slots, hashes, proof, s)
  {
    hide CollisionFree, GoodSlots, Calculable, Matches, Candidates, RootHashes;
  }

  /** What a report says of the leaves added: at the positions from after, exactly the hashes of new nodes and roots
      used; and exactly the empty roots written over. */
  ghost predicate AddsTold(r: Report, n: nat, after: seq<Hash>) {
    var o, g := ShapeIn(|after|, n), ShapeOf(|after|);
    && r.prevNumLeaves == n
    && Ascending(r.toDestroy) && (forall p: nat :: p in r.toDestroy <==> p in WrittenOver(o, g, after))
    && Sorted(r.newAdd)
    && (GoodSlots(after) ==>
          AllTrue(g, after, r.newAdd) && Reported(o, g, after, r.newAdd) && OnlyReported(o, g, after, r.newAdd))
  }

  /** What the report of an update says: at the positions from before, the hashes of what
      is left; at the positions from after, the hashes of new nodes and roots used; and the
      empty roots written over. */
  ghost predicate Truthful(r: Report, slots: seq<Hash>, dels: set<Hash>, adds: seq<Hash>, targets: set<nat>) {
    var g0 := ShapeOf(|slots|);
    var f := ForestOf(g0, slots);
    && Sorted(r.newDel)
    && (forall e :: e in r.newDel <==> Touched(g0, targets, e.pos) && e.hash == Merkle(Remains(g0, f, targets, e.pos)))
    && AddsTold(r, |slots|, Erase(slots, dels) + adds)
  }

  lemma {:induction false} UpdateHonest(g: Layout, slots: seq<Hash>, hashes: seq<Hash>, proof: Proof)
    requires LayoutFor(g, TreeRows(|slots|), |slots|) && HonestProof(g, ForestOf(g, slots), hashes, proof)
    ensures |hashes| == |proof.targets| && WellFormed(g, |slots|, Some(hashes), proof) &&
            WellFormed(g, |slots|, None, proof)
    ensures Calculable(g, |slots|, Some(hashes), proof)
    ensures exists x: seq<nat> :: Matches(x, Candidates(g, |slots|, Some(hashes), proof), RootHashes(slots))
    ensures !Refused(g, |slots|, hashes, proof, RootHashes(slots))
  {
    hide Matches, Candidates, RootHashes, At, PlanFor, ForestOf, WellFormed, Calculable;
    LayoutFits(g, TreeRows(|slots|), |slots|);
    ForestOfCompact(g, slots);
    HonestWellFormed(g, |slots|, ForestOf(g, slots), hashes, proof);
    HonestAccepted(g, slots, hashes, proof);
  }

  lemma {:induction false} UpdateTruth(g0: Layout, slots: seq<Hash>, hashes: seq<Hash>, adds: seq<Hash>, proof: Proof,
                                       r: Report)
    requires g0 == ShapeOf(|slots|)
    requires LayoutFor(g0, TreeRows(|slots|), |slots|) && HonestProof(g0, ForestOf(g0, slots), hashes, proof)
    requires Sorted(r.newDel) && AddsTold(r, |slots|, Erase(slots, HashSet(hashes)) + adds)
    requires forall e :: e in r.newDel <==>
                         Touched(g0, Elems(proof.targets), e.pos) &&
                         e.hash == Calc(g0, TargetMap(None, proof), GivenMap(g0, proof), e.pos)
    ensures Truthful(r, slots, HashSet(hashes), adds, Elems(proof.targets))
  {
    hide AddsTold, Touched, Calc, TargetMap, GivenMap, Rem, Merkle, At, ForestOf, PlanFor, SolidExcept, ShapeOf,
         LayoutFor;
    var f, d := ForestOf(g0, slots), Elems(proof.targets);
    LayoutFits(g0, TreeRows(|slots|), |slots|);
    ForestOfCompact(g0, slots);
    HonestWellFormed(g0, |slots|, f, hashes, proof);
    TargetMapFacts(None, proof);
    GivenMapFacts(g0, f, hashes, proof);
    HonestTargets(g0, f, hashes, proof);
    forall p: nat | Touched(g0, d, p)
      ensures Calc(g0, TargetMap(None, proof), GivenMap(g0, proof), p) == Merkle(Remains(g0, f, d, p))
    {
      CalcDeleted(g0, f, TargetMap(None, proof), GivenMap(g0, proof), p);
    }
  }

  lemma SubTreeIs(g: Layout, before: seq<Hash>, adds: seq<Hash>, rows: nat, j: nat, sub: seq<Entry>)
    requires j < |adds| && SubTree(LayoutOf(rows, |before| + j), g, before + adds[..j], adds[j..], rows, sub)
    ensures SubTreeAt(g, before, adds, rows, j, sub)
  {
    hide SubTree, LayoutOf;
  }

  lemma SubTreeSorted(o: Layout, g: Layout, before: seq<Hash>, adds: seq<Hash>, rows: nat, sub: seq<Entry>)
    requires SubTree(o, g, before, adds, rows, sub)
    ensures Sorted(sub)
  {
  }

  lemma {:induction false} DelFacts(g: Layout, n: nat, hashes: seq<Hash>, proof: Proof)
    requires Calculable(g, n, Some(hashes), proof)
    ensures Calculable(g, n, None, proof)
    ensures |Candidates(g, n, Some(hashes), proof)| == |Candidates(g, n, None, proof)|
    ensures WellFormed(g, n, None, proof) ==> TargetMap(None, proof).Keys == Elems(proof.targets)
  {
    hide Run, TermRun, Calculable, WellFormed, TargetMap, InForestTargets;
    BothRuns(g, n, hashes, proof);
    if WellFormed(g, n, None, proof) { TargetKeys(g, n, None, proof); }
  }
}
