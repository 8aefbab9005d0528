/** The stump: hashes of roots, and a count. */
module Stumps {
  import opened Hashes
  import opened Options
  import opened Positions
  import opened Geometry
  import opened Layouts
  import opened Shape
  import opened Entries
  import opened Calculation
  import opened Forests
  import opened Honest
  import opened Deletion
  import opened ProofMoves
  import opened Slots
  import opened Uniqueness

  function MerkleAll(ts: seq<Tree>): (r: seq<Hash>)
    ensures |r| == |ts| && forall i :: 0 <= i < |ts| ==> r[i] == Merkle(ts[i])
  {
    seq(|ts|, i requires 0 <= i < |ts| => Merkle(ts[i]))
  }

  /** The hashes of the roots of the slots, from the top row down. */
  function RootHashes(slots: seq<Hash>): seq<Hash> {
    MerkleAll(RootTrees(slots, 0))
  }

  /** Indexes of roots, from the lowest row up, that have the hashes of the candidates. */
  ghost predicate Matches(indexes: seq<nat>, candidates: seq<Hash>, roots: seq<Hash>) {
    |indexes| == |candidates| &&
    (forall i :: 0 <= i < |indexes| ==> indexes[i] < |roots| && roots[indexes[i]] == candidates[i]) &&
    (forall i, j :: 0 <= i < j < |indexes| ==> indexes[i] > indexes[j])
  }

  /** Every match has the candidates from `k` on among the first `x` roots. */
  ghost predicate StaysAhead(candidates: seq<Hash>, roots: seq<Hash>, k: nat, x: nat) {
    forall s: seq<nat> {:trigger Matches(s, candidates, roots)} :: Matches(s, candidates, roots) ==>
      forall j :: k <= j < |candidates| ==> s[j] < x
  }

  /** Look for the candidates among the roots, lowest first. */
  method MatchRoots(candidates: seq<Hash>, roots: seq<Hash>) returns (r: Option<seq<nat>>)
    ensures r.Some? ==> Matches(r.value, candidates, roots)
    ensures r.None? ==> !exists s: seq<nat> :: Matches(s, candidates, roots)
  {
    var indexes: seq<nat> := [];
    for i := 0 to |roots|
      invariant |indexes| <= |candidates|
      invariant Matches(indexes, candidates[..|indexes|], roots)
      invariant forall j :: 0 <= j < |indexes| ==> indexes[j] >= |roots| - i
      invariant StaysAhead(candidates, roots, |indexes|, |roots| - i)
    {
      var x := |roots| - (i + 1);
      NextRoot(candidates, roots, |indexes|, x);
      if |candidates| > |indexes| && roots[x] == candidates[|indexes|] {
        indexes := indexes + [x];
      }
    }
    if |candidates| != |indexes| {
      assert forall s: seq<nat> :: Matches(s, candidates, roots) ==> s[|indexes|] < 0;
      return None;
    }
    assert candidates[..|indexes|] == candidates;
    return Some(indexes);
  }

  lemma {:induction false} NextRoot(candidates: seq<Hash>, roots: seq<Hash>, k: nat, x: nat)
    requires x < |roots| && k <= |candidates| && StaysAhead(candidates, roots, k, x + 1)
    ensures StaysAhead(candidates, roots, if |candidates| > k && roots[x] == candidates[k] then k + 1 else k, x)
  {
    forall s: seq<nat> | Matches(s, candidates, roots)
      ensures forall j :: (if |candidates| > k && roots[x] == candidates[k] then k + 1 else k) <= j < |candidates| ==>
              s[j] < x
    {
      if k < |candidates| {
        assert s[k] < x + 1;
      }
    }
  }

  /** Check a proof against the roots: the hashes it leads to are the hashes of roots,
      in order.  The result is which roots. */
  method Verify(roots: seq<Hash>, n: nat, delHashes: seq<Hash>, proof: Proof, ghost g: Layout)
    returns (r: Option<seq<nat>>)
    requires |delHashes| == |proof.targets| ==> Calculable(g, n, Some(delHashes), proof)
    ensures |delHashes| != |proof.targets| ==> r.None?
    ensures |delHashes| == |proof.targets| ==>
              var candidates := Candidates(g, n, Some(delHashes), proof);
              && (r.Some? ==> Matches(r.value, candidates, roots))
              && (r.None? ==> !exists s: seq<nat> :: Matches(s, candidates, roots))
  {
    if |delHashes| != |proof.targets| {
      return None;
    }
    var _, candidates := CalculateHashes(n, Some(delHashes), proof, g);
    r := MatchRoots(candidates, roots);
  }

  /** The hashes of roots that a proof leads to. */
  ghost function Candidates(g: Layout, n: nat, delHashes: Option<seq<Hash>>, proof: Proof): seq<Hash>
    requires Calculable(g, n, delHashes, proof)
  {
    Run(g, n, delHashes, proof).value
  }

  /** When the targets differ and none is above another, they are what the recursion from the roots down defines. */
  lemma {:induction false} CandidatesPlanned(g: Layout, n: nat, delHashes: Option<seq<Hash>>, proof: Proof)
    requires WellFormed(g, n, delHashes, proof)
    ensures Calculable(g, n, delHashes, proof)
    ensures var t := TargetMap(delHashes, proof);
            Candidates(g, n, delHashes, proof) == CalcAll(g, t, GivenMap(g, proof), PlanFor(g, t.Keys).roots)
  {
    hide Run, TargetMap, GivenMap, PlanFor, CalcAll, WellFormed;
    PlannedCalculable(g, n, delHashes, proof);
  }

  /** A proof for leaves of a forest, with the hashes of that forest. */
  ghost predicate HonestProof(g: Layout, f: Forest, hashes: seq<Hash>, proof: Proof) {
    && NoDuplicates(proof.targets) && |hashes| == |proof.targets|
    && (forall i :: 0 <= i < |hashes| ==> At(g, f, proof.targets[i]) == Leaf(hashes[i]))
    && var needed := PlanFor(g, Elems(proof.targets)).proof;
       && |proof.proof| == |needed|
       && (forall i :: 0 <= i < |needed| ==> proof.proof[i] == Merkle(At(g, f, needed[i])))
  }

  lemma {:induction false} HonestWellFormed(g: Layout, n: nat, f: Forest, hashes: seq<Hash>, proof: Proof)
    requires LayoutFor(g, TreeRows(n), n) && Compact(g, f) && HonestProof(g, f, hashes, proof)
    ensures WellFormed(g, n, Some(hashes), proof) && WellFormed(g, n, None, proof)
    ensures Deletable(g, f, Elems(proof.targets))
    ensures forall x :: x in Elems(proof.targets) ==> At(g, f, x).Leaf?
  {
    hide At, PlanUpTo, LayoutFor, SolidExcept;
    LeavesValid(g, f, Elems(proof.targets));
    LeafDeletable(g, f, Elems(proof.targets));
  }

  /** The maps a list of targets stands for. */
  lemma {:induction false} TargetMapFacts(delHashes: Option<seq<Hash>>, proof: Proof)
    requires NoDuplicates(proof.targets) && (delHashes.Some? ==> |delHashes.value| == |proof.targets|)
    ensures TargetMap(delHashes, proof).Keys == Elems(proof.targets)
    ensures forall i :: 0 <= i < |proof.targets| ==>
              proof.targets[i] in TargetMap(delHashes, proof) &&
              TargetMap(delHashes, proof)[proof.targets[i]] == TargetHashes(delHashes, proof)[i]
  {
    hide MapOf, TargetHashes;
    TargetHashesCount(delHashes, proof);
    var z := Zip(proof.targets, TargetHashes(delHashes, proof));
    MapOfFacts(z);
    ZipPositions(proof.targets, TargetHashes(delHashes, proof));
    assert forall i :: 0 <= i < |z| ==> z[i] in z;
  }

  lemma {:induction false} GivenMapFacts(g: Layout, f: Forest, hashes: seq<Hash>, proof: Proof)
    requires Compact(g, f) && HonestProof(g, f, hashes, proof)
    ensures ProofOf(g, f, Elems(proof.targets), GivenMap(g, proof))
  {
    hide MapOf, At, PlanUpTo, SolidExcept;
    var t := Elems(proof.targets);
    var needed := PlanFor(g, t).proof;
    PlanMeaning(g, t, g.m);
    PlanAscending(g, t, g.m);
    var z := Zip(needed, proof.proof);
    MapOfFacts(z);
    forall p: nat | IsProofPos(g, t, p)
      ensures p in MapOf(z) && MapOf(z)[p] == Merkle(At(g, f, p))
    {
      g.NodeBound(p);
      var i :| 0 <= i < |needed| && needed[i] == p;
      assert z[i] in z;
    }
  }

  /** An honest proof leads to the hashes of the roots above its leaves; without the
      hashes of the leaves, to the hashes of what is left of those roots. */
  lemma {:induction false} HonestCandidates(g: Layout, n: nat, f: Forest, hashes: seq<Hash>, proof: Proof, i: nat)
    requires LayoutFor(g, TreeRows(n), n) && Compact(g, f) && HonestProof(g, f, hashes, proof)
    requires Deletable(g, f, Elems(proof.targets))
    requires i < |PlanFor(g, Elems(proof.targets)).roots|
    ensures Calculable(g, n, Some(hashes), proof) && Calculable(g, n, None, proof)
    ensures |Candidates(g, n, Some(hashes), proof)| == |Candidates(g, n, None, proof)| ==
            |PlanFor(g, Elems(proof.targets)).roots|
    ensures var p := PlanFor(g, Elems(proof.targets)).roots[i];
            && g.IsRoot(p) && Touched(g, Elems(proof.targets), p)
            && Candidates(g, n, Some(hashes), proof)[i] == Merkle(At(g, f, p)) != Empty
            && Candidates(g, n, None, proof)[i] == Merkle(Remains(g, f, Elems(proof.targets), p))
  {
    hide MapOf, At, PlanUpTo, SolidExcept, Calc, Touched, Merkle, Rem, TargetMap, GivenMap, Candidates, Calculable,
         WellFormed, LayoutFor;
    var t := Elems(proof.targets);
    HonestWellFormed(g, n, f, hashes, proof);
    CandidatesPlanned(g, n, Some(hashes), proof);
    CandidatesPlanned(g, n, None, proof);
    PlanMeaning(g, t, g.m);
    var p := PlanFor(g, t).roots[i];
    assert p in PlanFor(g, t).roots;
    TargetMapFacts(Some(hashes), proof);
    TargetMapFacts(None, proof);
    GivenMapFacts(g, f, hashes, proof);
    HonestTargets(g, f, hashes, proof);
    Complete(g, f, TargetMap(Some(hashes), proof), GivenMap(g, proof), p);
    CalcDeleted(g, f, TargetMap(None, proof), GivenMap(g, proof), p);
    TouchedAt(g, f, t, p);
    AtFits(g, f, p);
    MerkleEmpty(At(g, f, p));
  }

  lemma {:induction false} HonestTargets(g: Layout, f: Forest, hashes: seq<Hash>, proof: Proof)
    requires HonestProof(g, f, hashes, proof)
    ensures Leaves(g, f, TargetMap(Some(hashes), proof))
    ensures forall x :: x in TargetMap(None, proof) ==> At(g, f, x).Leaf? && TargetMap(None, proof)[x] == Empty
    ensures forall x :: x in Elems(proof.targets) ==> At(g, f, x).Leaf?
  {
    hide At, PlanFor, TargetMap;
    TargetMapFacts(Some(hashes), proof);
    TargetMapFacts(None, proof);
    forall x | x in TargetMap(Some(hashes), proof)
      ensures At(g, f, x) == Leaf(TargetMap(Some(hashes), proof)[x])
    {
      assert x in Elems(proof.targets);
      var i :| 0 <= i < |proof.targets| && proof.targets[i] == x;
    }
    forall x | x in TargetMap(None, proof)
      ensures At(g, f, x).Leaf? && TargetMap(None, proof)[x] == Empty
    {
      assert x in Elems(proof.targets);
      var i :| 0 <= i < |proof.targets| && proof.targets[i] == x;
    }
  }

  function IndexOf(s: seq<nat>, x: nat): (i: nat)
    requires x in s
    ensures i < |s| && s[i] == x
  {
    if s[0] == x then 0 else 1 + IndexOf(s[1..], x)
  }

  /** The root hashes, root by root. */
  lemma {:induction false} RootHashAt(g: Layout, rows: nat, slots: seq<Hash>)
    requires LayoutFor(g, rows, |slots|)
    ensures var roots := RootList(|slots|, rows, 0);
            && |RootHashes(slots)| == |roots| && Descending(roots)
            && (forall p: nat :: p in roots <==> g.IsRoot(p))
            && (forall i :: 0 <= i < |roots| ==>
                  g.IsRoot(roots[i]) && RootHashes(slots)[i] == Merkle(Collapse(g, slots, roots[i])))
  {
    hide Row, IsRoot, LayoutFor, Collapse, Layout.WellShaped, RootTrees, RootList, Layout.IsRoot;
    LayoutFits(g, rows, |slots|);
    var roots := RootList(|slots|, rows, 0);
    RootTreesAt(g, rows, slots, 0);
    RootListFacts(|slots|, rows, 0);
    forall p: nat
      ensures p in roots <==> g.IsRoot(p)
    {
      LayoutAt(g, rows, |slots|, p);
      if g.IsRoot(p) { RootValid(rows, |slots|, p); }
    }
    assert forall i :: 0 <= i < |roots| ==> roots[i] in roots;
  }

  /** An honest proof is accepted. */
  lemma {:induction false} HonestAccepted(g: Layout, slots: seq<Hash>, hashes: seq<Hash>, proof: Proof)
    requires LayoutFor(g, TreeRows(|slots|), |slots|) && Compact(g, ForestOf(g, slots))
    requires HonestProof(g, ForestOf(g, slots), hashes, proof)
    requires Deletable(g, ForestOf(g, slots), Elems(proof.targets))
    ensures Calculable(g, |slots|, Some(hashes), proof)
    ensures exists s: seq<nat> :: Matches(s, Candidates(g, |slots|, Some(hashes), proof), RootHashes(slots))
  {
    hide Row, IsRoot, LayoutFor, Collapse, Layout.WellShaped, RootTrees, RootHashes, RootList, At, ForestOk,
         SolidExcept, PlanUpTo, Candidates, Touched, Merkle, Rem, ForestOf, Calculable;
    var n, f := |slots|, ForestOf(g, slots);
    LayoutFits(g, TreeRows(n), n);
    var roots, touched := RootList(n, TreeRows(n), 0), PlanFor(g, Elems(proof.targets)).roots;
    RootHashAt(g, TreeRows(n), slots);
    PlanAscending(g, Elems(proof.targets), g.m);
    PlanMeaning(g, Elems(proof.targets), g.m);
    forall i | 0 <= i < |touched|
      ensures touched[i] in roots
    {
      assert touched[i] in touched;
    }
    var s: seq<nat> := seq(|touched|, i requires 0 <= i < |touched| => IndexOf(roots, touched[i]));
    HonestWellFormed(g, n, f, hashes, proof);
    CandidateCount(g, n, Some(hashes), proof);
    forall i | 0 <= i < |touched|
      ensures |Candidates(g, n, Some(hashes), proof)| == |touched|
      ensures s[i] < |RootHashes(slots)| && RootHashes(slots)[s[i]] == Candidates(g, n, Some(hashes), proof)[i]
    {
      HonestCandidates(g, n, f, hashes, proof, i);
      AtRoot(g, slots, touched[i]);
    }
    forall i, j | 0 <= i < j < |s|
      ensures s[i] > s[j]
    {
      assert roots[s[i]] < roots[s[j]];
    }
    assert Matches(s, Candidates(g, n, Some(hashes), proof), RootHashes(slots));
  }

  lemma {:induction false} CandidateCount(g: Layout, n: nat, delHashes: Option<seq<Hash>>, proof: Proof)
    requires WellFormed(g, n, delHashes, proof)
    ensures Calculable(g, n, delHashes, proof)
    ensures |Candidates(g, n, delHashes, proof)| == |PlanFor(g, Elems(proof.targets)).roots|
  {
    hide PlanFor, Calc, TargetMap, GivenMap, Candidates, Calculable, LayoutFor, ValidTargets;
    CandidatesPlanned(g, n, delHashes, proof);
    TargetMapFacts(delHashes, proof);
  }

  /** The roots after the matched ones are replaced. */
  ghost predicate Overwritten(before: seq<Hash>, s: seq<nat>, with: seq<Hash>, after: seq<Hash>) {
    && |after| == |before| && |s| == |with|
    && (forall j :: 0 <= j < |s| ==> s[j] < |after| && after[s[j]] == with[j])
    && (forall x :: 0 <= x < |after| && x !in s ==> after[x] == before[x])
  }

  ghost function HashSet(hashes: seq<Hash>): set<Hash> {
    set h | h in hashes
  }

  /** The targets of an honest proof are the places of the leaves with its hashes. */
  lemma {:induction false} HonestPositions(g: Layout, slots: seq<Hash>, hashes: seq<Hash>, proof: Proof)
    requires g.WellShaped() && GoodSlots(slots) && HonestProof(g, ForestOf(g, slots), hashes, proof)
    ensures LeafPositions(g, ForestOf(g, slots), Elems(proof.targets), HashSet(hashes))
  {
    hide At, PlanFor, ForestOf, Layout.WellShaped, GoodSlots;
    var f := ForestOf(g, slots);
    DistinctForest(g, slots);
    forall x | x in Elems(proof.targets)
      ensures At(g, f, x).Leaf? && At(g, f, x).hash in HashSet(hashes)
    {
      var i :| 0 <= i < |proof.targets| && proof.targets[i] == x;
      assert hashes[i] in hashes;
    }
    forall x: nat | At(g, f, x).Leaf? && At(g, f, x).hash in HashSet(hashes)
      ensures x in Elems(proof.targets)
    {
      var i :| 0 <= i < |hashes| && hashes[i] == At(g, f, x).hash;
      assert At(g, f, proof.targets[i]) == At(g, f, x);
      assert proof.targets[i] in proof.targets;
    }
  }
}
