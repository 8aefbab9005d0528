/** Putting proofs together and taking them apart. */
module ProofAlgebra {
  import opened Hashes
  import opened Options
  import opened Positions
  import opened Geometry
  import opened Layouts
  import opened Shape
  import opened Entries
  import opened ProofPositions
  import opened Calculation
  import opened Forests
  import opened Honest
  import opened Slots
  import opened Uniqueness
  import opened Stumps
  import opened ProofRemove
  import opened ProofFollows
  import opened RemoveStep
  import opened AddStep

  /** What a proof for `t` gives: its hashes, its targets, and what can be computed. */
  lemma {:induction false} HaveFacts(g: Layout, t: set<nat>, have: seq<nat>, ts: seq<nat>)
    requires ValidTargets(g, t) && Elems(ts) == t && NoDuplicates(ts)
    requires have == PlanFor(g, t).proof + ts + PlanFor(g, t).computed
    ensures NoDuplicates(have)
    ensures forall x: nat :: x in have <==> IsProofPos(g, t, x) || Touched(g, t, x)
  {
    hide PlanUpTo, IsProofPos, Layout.WellShaped;
    var plan := PlanFor(g, t);
    PlanMeaning(g, t, g.m);
    PlanAscending(g, t, g.m);
    forall x: nat
      ensures x in plan.proof <==> IsProofPos(g, t, x)
      ensures x in plan.computed <==> TouchedBelow(g, t, x)
      ensures x in ts <==> x in t
    {
      if IsProofPos(g, t, x) { ProofPosBound(g, t, x); }
      if TouchedBelow(g, t, x) { g.ChildFacts(x); g.NodeBound(x); }
      assert x in ts <==> x in Elems(ts);
    }
    forall x: nat
      ensures x in ts || x in plan.computed <==> Touched(g, t, x)
      ensures x in ts ==> x !in plan.computed
      ensures IsProofPos(g, t, x) ==> !Touched(g, t, x)
    {
      if x in t { g.NodeBound(x); }
      ProofPosUntouched(g, t, x);
    }
    hide Touched;
    TwoLists(plan.proof, ts);
    TwoLists(plan.proof + ts, plan.computed);
  }

  lemma ProofPosUntouched(g: Layout, t: set<nat>, x: nat)
    ensures IsProofPos(g, t, x) ==> !Touched(g, t, x)
  {
  }

  lemma TwoLists(a: seq<nat>, b: seq<nat>)
    requires NoDuplicates(a) && NoDuplicates(b) && forall x :: x in a ==> x !in b
    ensures NoDuplicates(a + b)
  {
    var s := a + b;
    assert forall i :: 0 <= i < |a| ==> a[i] in a;
    assert forall j :: 0 <= j < |b| ==> b[j] in b;
    forall i, j | 0 <= i < j < |s|
      ensures s[i] != s[j]
    {
      if i < |a| && j >= |a| { assert s[i] == a[i] && s[j] == b[j - |a|]; }
    }
  }

  /** Missing for `d`, when there is a proof for `t`: needed to prove both, and not part of that proof. */
  lemma {:induction false} MissingIff(g: Layout, t: set<nat>, d: set<nat>, x: nat)
    ensures IsProofPos(g, d - t, x) && !IsProofPos(g, t, x) && !Touched(g, t, x) <==>
            IsProofPos(g, t + d, x) && !IsProofPos(g, t, x)
  {
    hide Touched;
    assert t + d == t + (d - t);
    TouchedUnion(g, t, d - t, x);
    TouchedUnion(g, t, d - t, Sibling(x));
  }

  /** The positions of the hashes to ask for, so that a proof for some targets can be made one
      for others as well: exactly those needed for all, without those of the proof. */
  method GetMissingPositions(n: nat, proofTargets: seq<nat>, desiredTargets: seq<nat>, ghost g: Layout)
    returns (missing: seq<nat>)
    requires LayoutFor(g, TreeRows(n), n) && NoDuplicates(proofTargets) && NoDuplicates(desiredTargets)
    requires ValidTargets(g, Elems(proofTargets)) && ValidTargets(g, Elems(desiredTargets))
    ensures Ascending(missing)
    ensures forall x: nat :: x in missing <==>
              IsProofPos(g, Elems(proofTargets) + Elems(desiredTargets), x) && !IsProofPos(g, Elems(proofTargets), x)
  {
    hide LayoutFor, IsProofPos, Touched, SortPositions, PlanFor, Layout.WellShaped, TreeRows, Without;
    ghost var t, d := Elems(proofTargets), Elems(desiredTargets);
    var rows := TreeRows(n);
    SortPositionsFacts(proofTargets);
    SortPositionsFacts(desiredTargets);
    var targets, desired := SortPositions(proofTargets), SortPositions(desiredTargets);
    desired := SubtractAscending(desired, targets);
    ElemsDifference(SortPositions(desiredTargets), targets, desired);
    FewerTargets(g, d, d - t);
    if |desired| == 0 {
      NoneMissingOf(g, t, d, desired);
      return [];
    }
    var desiredPositions, _ := ProofPositions.ProofPositions(desired, n, rows, g);
    var have, computable := ProofPositions.ProofPositions(targets, n, rows, g);
    have := have + targets + computable;
    AscendingDistinct(targets);
    HaveFacts(g, t, have, targets);
    SortPositionsFacts(have);
    ElemsOf(have, SortPositions(have));
    PlanIsProofPos(g, d - t);
    missing := SubtractAscending(desiredPositions, SortPositions(have));
    forall x: nat
      ensures x in missing <==> IsProofPos(g, t + d, x) && !IsProofPos(g, t, x)
    {
      MissingIff(g, t, d, x);
    }
  }

  lemma AscendingDistinct(s: seq<nat>)
    requires Ascending(s)
    ensures NoDuplicates(s)
  {
  }

  lemma {:induction false} ElemsDifference(a: seq<nat>, b: seq<nat>, c: seq<nat>)
    requires forall x :: x in c <==> x in a && x !in b
    ensures Elems(c) == Elems(a) - Elems(b)
  {
  }

  lemma {:induction false} FewerTargets(g: Layout, d: set<nat>, e: set<nat>)
    requires ValidTargets(g, d) && e <= d
    ensures ValidTargets(g, e)
  {
    hide Touched;
    assert d == e + d;
    forall x | x in e
      ensures !TouchedBelow(g, e, x)
    {
      TouchedUnion(g, e, d, x);
    }
  }

  lemma {:induction false} NoneMissingOf(g: Layout, t: set<nat>, d: set<nat>, desired: seq<nat>)
    requires |desired| == 0 && Elems(desired) == d - t
    ensures forall x: nat :: !(IsProofPos(g, t + d, x) && !IsProofPos(g, t, x))
  {
    assert desired == [] && Elems(desired) == {};
    assert t + d == t + (d - t) == t;
  }

  /** The hashes of two proofs that are still needed for both. */
  lemma {:induction false} UnionIff(g: Layout, a: set<nat>, b: set<nat>, x: nat)
    ensures IsProofPos(g, a + b, x) <==>
            (IsProofPos(g, a, x) || IsProofPos(g, b, x)) && !Touched(g, a, x) && !Touched(g, b, x)
  {
    hide Touched;
    TouchedUnion(g, a, b, x);
    TouchedUnion(g, a, b, Sibling(x));
  }

  lemma {:induction false} PlanTouched(g: Layout, s: set<nat>, ts: seq<nat>, x: nat)
    requires ValidTargets(g, s) && Elems(ts) == s
    ensures x in ts || x in PlanFor(g, s).computed <==> Touched(g, s, x)
    ensures Ascending(PlanFor(g, s).computed)
  {
    hide PlanUpTo, Layout.WellShaped;
    PlanMeaning(g, s, g.m);
    PlanAscending(g, s, g.m);
    assert x in ts <==> x in Elems(ts);
    if TouchedBelow(g, s, x) { g.ChildFacts(x); g.NodeBound(x); }
    if x in s { g.NodeBound(x); }
  }

  /** The lists of an honest proof. */
  ghost predicate Lists(g: Layout, f: Forest, s: set<nat>, leaves: seq<Entry>, proofs: seq<Entry>) {
    && LeafList(g, f, s, leaves) && Sorted(proofs)
    && forall e: Entry :: e in proofs <==> IsProofPos(g, s, e.pos) && e.hash == Merkle(At(g, f, e.pos))
  }

  /** Sort the targets, find the positions of the proof hashes and of what can be computed. */
  method Open(proof: Proof, hashes: seq<Hash>, n: nat, ghost g: Layout, ghost f: Forest)
    returns (targets: seq<nat>, leaves: seq<Entry>, proofs: seq<Entry>, computed: seq<nat>)
    requires LayoutFor(g, TreeRows(n), n) && Compact(g, f) && HonestProof(g, f, hashes, proof)
    ensures Lists(g, f, Elems(proof.targets), leaves, proofs)
    ensures Ascending(targets) && Elems(targets) == Elems(proof.targets) && ValidTargets(g, Elems(proof.targets))
    ensures (forall x: nat :: x in targets || x in computed <==> Touched(g, Elems(proof.targets), x)) &&
            Ascending(computed)
    ensures forall x :: x in Elems(proof.targets) ==> At(g, f, x).Leaf?
  {
    hide LayoutFor, IsProofPos, Touched, SortPositions, PlanFor, Layout.WellShaped, TreeRows, HonestProof, At, Merkle,
         SolidExcept, SortEntries;
    ProofShape(g, n, f, hashes, proof);
    HonestDistinct(g, f, hashes, proof);
    SortPositionsFacts(proof.targets);
    targets := SortPositions(proof.targets);
    var proofPos;
    proofPos, computed := ProofPositions.ProofPositions(targets, n, TreeRows(n), g);
    ProofList(g, f, hashes, proof);
    SortedLeaves(g, f, hashes, proof);
    leaves := SortEntries(Zip(proof.targets, hashes));
    proofs := SortEntries(Zip(proofPos, proof.proof));
    forall x: nat
      ensures x in targets || x in computed <==> Touched(g, Elems(proof.targets), x)
    {
      PlanTouched(g, Elems(proof.targets), targets, x);
    }
    PlanTouched(g, Elems(proof.targets), targets, 0);
  }

  lemma HonestDistinct(g: Layout, f: Forest, hashes: seq<Hash>, proof: Proof)
    requires HonestProof(g, f, hashes, proof)
    ensures NoDuplicates(proof.targets) && |hashes| == |proof.targets|
  {
    hide At, PlanFor;
  }

  /** A proof for all the targets of two proofs. */
  method AddProof(proofA: Proof, proofB: Proof, hashesA: seq<Hash>, hashesB: seq<Hash>, n: nat, ghost g: Layout,
                  ghost f: Forest)
    returns (hashes: seq<Hash>, proof: Proof)
    requires LayoutFor(g, TreeRows(n), n) && Compact(g, f)
    requires HonestProof(g, f, hashesA, proofA) && HonestProof(g, f, hashesB, proofB)
    ensures HonestProof(g, f, hashes, proof)
    ensures Elems(proof.targets) == Elems(proofA.targets) + Elems(proofB.targets) && Ascending(proof.targets)
  {
    hide LayoutFor, IsProofPos, Touched, Layout.WellShaped, TreeRows, HonestProof, At, Merkle, SolidExcept,
         ValidTargets, LeafList;
    ghost var a, b := Elems(proofA.targets), Elems(proofB.targets);
    var targetsA, leavesA, proofsA, computedA := Open(proofA, hashesA, n, g, f);
    var targetsB, leavesB, proofsB, computedB := Open(proofB, hashesB, n, g, f);
    var proofsC := MergeSorted(proofsA, proofsB);
    var computedC := MergeAscending(computedA, computedB);
    var someLeft := SubtractSorted(proofsC, computedC);
    var targetsC := MergeAscending(targetsA, targetsB);
    var left := SubtractSorted(someLeft, targetsC);
    LeafListSorted(g, f, a, leavesA);
    LeafListSorted(g, f, b, leavesB);
    var leavesC := MergeSorted(leavesA, leavesB);
    MergedLeaves(g, f, a, b, leavesA, leavesB, leavesC);
    UnionHashes(g, f, a, b, proofsA, proofsB, proofsC);
    forall e: Entry
      ensures e in left <==> IsProofPos(g, a + b, e.pos) && e.hash == Merkle(At(g, f, e.pos))
    {
      UnionIff(g, a, b, e.pos);
    }
    CompactShape(g, f);
    LeafListIff(g, f, a + b, leavesC);
    MakeHonest(g, f, leavesC, left, a + b);
    ElemsUnion(targetsA, targetsB, targetsC);
    AscendingUnique(targetsC, PositionsOf(leavesC)) by { ElemsOf(targetsC, PositionsOf(leavesC)); }
    hashes, proof := HashesOf(leavesC), Proof(targetsC, HashesOf(left));
  }

  lemma ElemsUnion(a: seq<nat>, b: seq<nat>, c: seq<nat>)
    requires forall x :: x in c <==> x in a || x in b
    ensures Elems(c) == Elems(a) + Elems(b)
  {
  }

  lemma {:induction false} UnionHashes(g: Layout, f: Forest, a: set<nat>, b: set<nat>, x: seq<Entry>, y: seq<Entry>,
                                       z: seq<Entry>)
    requires forall e: Entry :: e in x <==> IsProofPos(g, a, e.pos) && e.hash == Merkle(At(g, f, e.pos))
    requires forall e: Entry :: e in y <==> IsProofPos(g, b, e.pos) && e.hash == Merkle(At(g, f, e.pos))
    requires forall e: Entry :: e in z <==> e in x || (e in y && e.pos !in PositionsOf(x))
    ensures forall e: Entry :: e in z <==>
              (IsProofPos(g, a, e.pos) || IsProofPos(g, b, e.pos)) && e.hash == Merkle(At(g, f, e.pos))
  {
    hide IsProofPos, At, Merkle;
    forall e: Entry | e in y && e.pos in PositionsOf(x)
      ensures e in x
    {
      var i :| 0 <= i < |x| && PositionsOf(x)[i] == e.pos;
      assert x[i] in x;
    }
  }

  /** Taking away leaves nothing exactly when everything is there, and once. */
  lemma {:induction false} NothingLeft(a: seq<nat>, b: seq<nat>)
    requires InOrder(a) && Ascending(b)
    ensures Without(a, b) == [] <==> Ascending(a) && forall x :: x in a ==> x in b
    decreases |a| + |b|
  {
    if |a| > 0 && |b| > 0 {
      assert a == [a[0]] + a[1..] && b == [b[0]] + b[1..];
      assert forall i :: 0 <= i < |a| ==> a[0] <= a[i];
      InOrderTail(a);
      if a[0] == b[0] {
        NothingLeft(a[1..], b[1..]);
        SameHead(a[0], a[1..], b[1..]);
      } else if a[0] > b[0] {
        NothingLeft(a, b[1..]);
      } else {
        assert a[0] in a && a[0] !in b;
      }
    } else if |a| > 0 {
      assert a[0] in a;
    }
  }

  lemma SameHead(p: nat, a: seq<nat>, b: seq<nat>)
    requires InOrder(a) && Ascending([p] + b) && forall x :: x in a ==> p <= x
    ensures Ascending(a) && (forall x :: x in a ==> x in b) <==> Ascending([p] + a) && forall x :: x in [p] + a ==>
            x in [p] + b
  {
    hide InOrder, Ascending;
    InOrderCons(p, a);
    AscendingHead(p, b);
    if Ascending([p] + a) && forall x :: x in [p] + a ==> x in [p] + b {
      forall x | x in a
        ensures x in b
      {
        assert x in [p] + a;
      }
    }
  }

  lemma InOrderTail(a: seq<nat>)
    requires InOrder(a) && |a| > 0
    ensures InOrder(a[1..]) && forall x :: x in a[1..] ==> a[0] <= x
  {
  }

  /** The index a target has when the targets are in order. */
  ghost function Rank(proof: Proof, want: nat): (i: nat)
    requires want in proof.targets
    ensures i < |proof.targets|
  {
    SortPositionsFacts(proof.targets);
    ElemsOf(proof.targets, SortPositions(proof.targets));
    IndexOf(SortPositions(proof.targets), want)
  }

  /** Entries of sorted targets and some hashes, restricted to the wanted. */
  lemma {:induction false} WantedEntries(proof: Proof, hashes: seq<Hash>, sorted: seq<nat>, wants: seq<nat>,
                                         found: seq<Entry>)
    requires NoDuplicates(proof.targets) && |hashes| == |proof.targets| == |sorted| &&
             sorted == SortPositions(proof.targets)
    requires Sorted(found) && Ascending(sorted)
    requires forall e: Entry :: e in found <==> e in SortEntries(Zip(sorted, hashes)) && e.pos in wants
    requires forall w :: w in wants ==> w in proof.targets
    ensures forall w :: w in wants ==> w in PositionsOf(found)
    ensures forall i :: 0 <= i < |found| ==>
              found[i].pos in proof.targets && found[i].hash == hashes[Rank(proof, found[i].pos)]
    ensures Elems(PositionsOf(found)) == Elems(wants) && Ascending(PositionsOf(found))
  {
    hide SortEntries, SortPositions;
    var z := Zip(sorted, hashes);
    SortFacts(z);
    ElemsOf(proof.targets, sorted) by { SortPositionsFacts(proof.targets); }
    forall w | w in wants
      ensures w in PositionsOf(found)
    {
      var i :| 0 <= i < |sorted| && sorted[i] == w;
      assert z[i] in z && z[i] in found;
      var j :| 0 <= j < |found| && found[j] == z[i];
      assert PositionsOf(found)[j] == w;
    }
    forall i | 0 <= i < |found|
      ensures found[i].pos in proof.targets && found[i].hash == hashes[Rank(proof, found[i].pos)] &&
              found[i].pos in wants
    {
      assert found[i] in found && found[i] in z;
      var k :| 0 <= k < |z| && z[k] == found[i];
      assert sorted[k] in sorted;
      assert sorted[k] == sorted[Rank(proof, found[i].pos)];
    }
  }

  /** The proof hashes for fewer targets are all at hand. */
  lemma {:induction false} SubsetKnown(g: Layout, f: Forest, t: map<nat, Hash>, given: map<nat, Hash>, w: set<nat>,
                                       nodes: seq<Entry>, proofs: seq<Entry>, all: seq<Entry>)
    requires Compact(g, f) && w <= t.Keys && Leaves(g, f, t) && ProofOf(g, f, t.Keys, given)
    requires forall e: Entry :: e in nodes <==> Touched(g, t.Keys, e.pos) && e.hash == Calc(g, t, given, e.pos)
    requires forall e: Entry :: e in proofs <==> IsProofPos(g, t.Keys, e.pos) && e.hash == Merkle(At(g, f, e.pos))
    requires forall e: Entry :: e in all <==> e in nodes || (e in proofs && e.pos !in PositionsOf(nodes))
    ensures forall e: Entry :: e in all && IsProofPos(g, w, e.pos) <==>
              IsProofPos(g, w, e.pos) && e.hash == Merkle(At(g, f, e.pos))
  {
    hide Touched, Calc, Merkle, At, SolidExcept, Layout.WellShaped;
    forall e: Entry | IsProofPos(g, w, e.pos)
      ensures e in all <==> e.hash == Merkle(At(g, f, e.pos))
    {
      assert t.Keys == w + t.Keys;
      TouchedUnion(g, w, t.Keys, e.pos);
      TouchedUnion(g, w, t.Keys, Sibling(e.pos));
      if Touched(g, t.Keys, e.pos) {
        Complete(g, f, t, given, e.pos);
        TouchedInNodes(g, t, given, nodes, e.pos);
      } else {
        NotInNodes(g, t, given, nodes, e.pos);
      }
    }
  }

  lemma TouchedInNodes(g: Layout, t: map<nat, Hash>, given: map<nat, Hash>, nodes: seq<Entry>, p: nat)
    requires forall e: Entry :: e in nodes <==> Touched(g, t.Keys, e.pos) && e.hash == Calc(g, t, given, e.pos)
    requires Touched(g, t.Keys, p)
    ensures p in PositionsOf(nodes)
  {
    hide Touched, Calc;
    assert Entry(p, Calc(g, t, given, p)) in nodes;
    var i :| 0 <= i < |nodes| && nodes[i] == Entry(p, Calc(g, t, given, p));
    assert PositionsOf(nodes)[i] == p;
  }

  lemma NotInNodes(g: Layout, t: map<nat, Hash>, given: map<nat, Hash>, nodes: seq<Entry>, p: nat)
    requires forall e: Entry :: e in nodes <==> Touched(g, t.Keys, e.pos) && e.hash == Calc(g, t, given, e.pos)
    requires !Touched(g, t.Keys, p)
    ensures p !in PositionsOf(nodes)
  {
    hide Touched, Calc;
    forall i | 0 <= i < |nodes|
      ensures PositionsOf(nodes)[i] != p
    {
      assert nodes[i] in nodes;
    }
  }

  /** The proof hashes are those of a proof for these targets. */
  ghost predicate HonestHashes(g: Layout, f: Forest, proof: Proof) {
    var needed := PlanFor(g, Elems(proof.targets)).proof;
    |proof.proof| == |needed| && forall i :: 0 <= i < |needed| ==> proof.proof[i] == Merkle(At(g, f, needed[i]))
  }

  lemma {:induction false} FoundHashes(g: Layout, f: Forest, w: set<nat>, all: seq<Entry>, needed: seq<nat>,
                                       found: seq<Entry>)
    requires needed == PlanFor(g, w).proof && g.WellShaped() && Sorted(found)
    requires forall e: Entry :: e in all && IsProofPos(g, w, e.pos) <==>
               IsProofPos(g, w, e.pos) && e.hash == Merkle(At(g, f, e.pos))
    requires forall e: Entry :: e in found <==> e in all && e.pos in needed
    ensures |found| == |needed| && forall i :: 0 <= i < |needed| ==> found[i].hash == Merkle(At(g, f, needed[i]))
  {
    hide PlanFor, IsProofPos, Merkle, At, Layout.WellShaped;
    PlanIsProofPos(g, w);
    forall e: Entry
      ensures e in found <==> IsProofPos(g, w, e.pos) && e.hash == Merkle(At(g, f, e.pos))
    {
    }
    ProofListPositions(g, f, w, found);
    AscendingUnique(PositionsOf(found), needed);
    assert forall i :: 0 <= i < |found| ==> found[i] in found && PositionsOf(found)[i] == needed[i];
  }

  /** A proof for some of the targets of a proof.  It fails exactly when a wanted target is not
      there, or wanted twice.  The proof hashes are right; the leaf hash for a target is the one
      given at the index the target has when all targets are in order. */
  method GetProofSubset(proof: Proof, hashes: seq<Hash>, wants: seq<nat>, n: nat, ghost g: Layout, ghost f: Forest)
    returns (r: Option<(seq<Hash>, Proof)>)
    requires LayoutFor(g, TreeRows(n), n) && Compact(g, f) && HonestProof(g, f, hashes, proof)
    ensures r.Some? <==> NoDuplicates(wants) && forall w :: w in wants ==> w in proof.targets
    ensures r.Some? ==>
              && r.value.1.targets == wants && HonestHashes(g, f, r.value.1)
              && |r.value.0| == |wants|
              && forall i :: 0 <= i < |wants| ==>
                   wants[i] in proof.targets && Rank(proof, wants[i]) < |hashes| &&
                       r.value.0[i] == hashes[Rank(proof, wants[i])]
  {
    hide LayoutFor, IsProofPos, Touched, Layout.WellShaped, TreeRows, HonestProof, At, Merkle, SolidExcept,
         ValidTargets, SortPositions, SortEntries, Without, Rank, PlanFor, Calc, TargetMap, GivenMap, Leaves, ProofOf,
         IndexOf, WellFormed, Zip, HonestHashes;
    HonestDistinct(g, f, hashes, proof);
    ProofShape(g, n, f, hashes, proof);
    CompactShape(g, f);
    SortPositionsFacts(proof.targets);
    SortPositionsFacts(wants);
    var sorted, sortedWants := SortPositions(proof.targets), SortPositions(wants);
    ElemsOf(proof.targets, sorted);
    ElemsOf(wants, sortedWants);
    var left := SubtractAscending(sortedWants, sorted);
    NothingLeft(sortedWants, sorted);
    if |left| > 0 {
      return None;
    }
    assert left == [];
    ghost var c, w := Elems(proof.targets), Elems(wants);
    ZipSorts(sorted, hashes);
    var nodes := CalculatedNodes(proof, hashes, n, g, f);
    var positions, _ := ProofPositions.ProofPositions(sorted, n, TreeRows(n), g);
    ProofList(g, f, hashes, proof);
    var all := MergeSorted(nodes, SortEntries(Zip(positions, proof.proof)));
    SubsetOf(g, f, hashes, proof, w, nodes, SortEntries(Zip(positions, proof.proof)), all);

    var wanted := SubsetSorted(SortEntries(Zip(sorted, hashes)), sortedWants);
    WantedEntries(proof, hashes, sorted, wants, wanted);
    FewerTargets(g, c, w);
    var wantPos, _ := ProofPositions.ProofPositions(PositionsOf(wanted), n, TreeRows(n), g);
    PlanIsProofPos(g, w);
    var proofs := SubsetSorted(all, wantPos);
    FoundHashes(g, f, w, all, wantPos, proofs);
    if |proofs| != |wantPos| {
      return None;
    }
    var retHashes := LookUp(wanted, wants, proof, hashes);
    r := Some((retHashes, Proof(wants, HashesOf(proofs))));
    HashesAreHonest(g, f, w, wants, proofs);
  }

  /** The hashes found for the wanted positions, in the order they are wanted. */
  method LookUp(wanted: seq<Entry>, wants: seq<nat>, ghost proof: Proof, ghost hashes: seq<Hash>)
    returns (retHashes: seq<Hash>)
    requires |hashes| == |proof.targets| && forall w :: w in wants ==> w in PositionsOf(wanted)
    requires forall i :: 0 <= i < |wanted| ==>
               wanted[i].pos in proof.targets && wanted[i].hash == hashes[Rank(proof, wanted[i].pos)]
    ensures |retHashes| == |wants|
    ensures forall i :: 0 <= i < |wants| ==>
              wants[i] in proof.targets && Rank(proof, wants[i]) < |hashes| &&
                  retHashes[i] == hashes[Rank(proof, wants[i])]
  {
    hide Rank, IndexOf;
    retHashes := [];
    for i := 0 to |wants|
      invariant |retHashes| == i
      invariant forall j :: 0 <= j < i ==>
                  wants[j] in proof.targets && Rank(proof, wants[j]) < |hashes| &&
                      retHashes[j] == hashes[Rank(proof, wants[j])]
    {
      assert wants[i] in wants;
      var idx := IndexOf(PositionsOf(wanted), wants[i]);
      retHashes := retHashes + [wanted[idx].hash];
    }
  }

  lemma HashesAreHonest(g: Layout, f: Forest, w: set<nat>, wants: seq<nat>, proofs: seq<Entry>)
    requires w == Elems(wants)
    requires |proofs| == |PlanFor(g, w).proof|
    requires forall i :: 0 <= i < |proofs| ==> proofs[i].hash == Merkle(At(g, f, PlanFor(g, w).proof[i]))
    ensures HonestHashes(g, f, Proof(wants, HashesOf(proofs)))
  {
    hide PlanFor, Merkle, At;
  }

  lemma {:induction false} ZipSorts(sorted: seq<nat>, hashes: seq<Hash>)
    requires Ascending(sorted) && |sorted| == |hashes|
    ensures Sorted(SortEntries(Zip(sorted, hashes)))
  {
    hide SortEntries;
    SortFacts(Zip(sorted, hashes));
  }

  /** Every node on the way from the targets to the roots, with its hash. */
  method CalculatedNodes(proof: Proof, hashes: seq<Hash>, n: nat, ghost g: Layout, ghost f: Forest)
    returns (nodes: seq<Entry>)
    requires LayoutFor(g, TreeRows(n), n) && Compact(g, f) && HonestProof(g, f, hashes, proof)
    ensures |hashes| == |proof.targets| && |proof.proof| >= |PlanFor(g, Elems(proof.targets)).proof|
    ensures Sorted(nodes)
    ensures forall e: Entry :: e in nodes <==>
              Touched(g, TargetMap(Some(hashes), proof).Keys, e.pos) &&
              e.hash == Calc(g, TargetMap(Some(hashes), proof), GivenMap(g, proof), e.pos)
  {
    hide LayoutFor, Touched, HonestProof, At, SolidExcept, SortEntries, Calc, TargetMap, GivenMap, PlanFor,
         ValidTargets;
    HonestWellFormed(g, n, f, hashes, proof);
    PlannedCalculable(g, n, Some(hashes), proof);
    var calculated, _ := CalculateHashes(n, Some(hashes), proof, g);
    SortFacts(calculated);
    nodes := SortEntries(calculated);
  }

  lemma {:induction false} SubsetOf(g: Layout, f: Forest, hashes: seq<Hash>, proof: Proof, w: set<nat>,
                                    nodes: seq<Entry>, proofs: seq<Entry>, all: seq<Entry>)
    requires Compact(g, f) && HonestProof(g, f, hashes, proof) && w <= Elems(proof.targets)
    requires |hashes| == |proof.targets| && |proof.proof| >= |PlanFor(g, Elems(proof.targets)).proof|
    requires forall e: Entry :: e in nodes <==>
              Touched(g, TargetMap(Some(hashes), proof).Keys, e.pos) &&
              e.hash == Calc(g, TargetMap(Some(hashes), proof), GivenMap(g, proof), e.pos)
    requires forall e: Entry :: e in proofs <==>
               IsProofPos(g, Elems(proof.targets), e.pos) && e.hash == Merkle(At(g, f, e.pos))
    requires forall e: Entry :: e in all <==> e in nodes || (e in proofs && e.pos !in PositionsOf(nodes))
    ensures forall e: Entry :: e in all && IsProofPos(g, w, e.pos) <==>
              IsProofPos(g, w, e.pos) && e.hash == Merkle(At(g, f, e.pos))
  {
    hide IsProofPos, Touched, HonestProof, At, SolidExcept, Calc, TargetMap, GivenMap, PlanFor, Merkle, Leaves, ProofOf;
    HonestDistinct(g, f, hashes, proof);
    TargetMapFacts(Some(hashes), proof);
    HonestTargets(g, f, hashes, proof);
    GivenMapFacts(g, f, hashes, proof);
    SubsetKnown(g, f, TargetMap(Some(hashes), proof), GivenMap(g, proof), w, nodes, proofs, all);
  }

  /** The result is an honest proof exactly when every wanted target is where it would be if the
      targets were in order. */
  lemma {:induction false} SubsetHonest(g: Layout, f: Forest, proof: Proof, hashes: seq<Hash>, wants: seq<nat>,
                                        hashes': seq<Hash>, proof': Proof)
    requires DistinctLeaves(g, f) && HonestProof(g, f, hashes, proof)
    requires NoDuplicates(wants) && proof'.targets == wants && HonestHashes(g, f, proof') && |hashes'| == |wants|
    requires forall i :: 0 <= i < |wants| ==>
               wants[i] in proof.targets && Rank(proof, wants[i]) < |hashes| &&
                   hashes'[i] == hashes[Rank(proof, wants[i])]
    ensures HonestProof(g, f, hashes', proof') <==>
            forall i :: 0 <= i < |wants| ==> Rank(proof, wants[i]) == IndexOf(proof.targets, wants[i])
  {
    hide At, PlanFor, Merkle, Rank, IndexOf;
    forall i | 0 <= i < |wants|
      ensures At(g, f, wants[i]) == Leaf(hashes'[i]) <==> Rank(proof, wants[i]) == IndexOf(proof.targets, wants[i])
    {
      var k, l := Rank(proof, wants[i]), IndexOf(proof.targets, wants[i]);
      assert At(g, f, proof.targets[k]) == Leaf(hashes[k]) && At(g, f, proof.targets[l]) == Leaf(hashes[l]);
      assert hashes[k] == hashes[l] ==> proof.targets[k] == proof.targets[l];
    }
  }

  /** In order, every target is where it should be. */
  lemma {:induction false} RankInOrder(proof: Proof, want: nat)
    requires Ascending(proof.targets) && want in proof.targets
    ensures Rank(proof, want) == IndexOf(proof.targets, want)
  {
    hide SortPositions, IndexOf;
    SortPositionsFacts(proof.targets);
    AscendingDistinct(proof.targets);
    ElemsOf(proof.targets, SortPositions(proof.targets));
    AscendingUnique(proof.targets, SortPositions(proof.targets));
  }

  /** The forest of two leaves. */
  ghost function TwoLeaves(): Layout {
    Layout(2, {0, 1, 2})
  }

  lemma {:induction false} TwoLeavesLayout()
    ensures LayoutFor(TwoLeaves(), TreeRows(2), 2)
  {
    hide InForest, TreeRows;
    assert Pow2(1) == 2;
    TwoRows();
    var g := TwoLeaves();
    assert g.WellShaped();
    forall p: nat
      ensures p in g.nodes <==> InForest(1, 2, p)
    {
      InTwo(p);
    }
  }

  lemma TwoRows()
    ensures TreeRows(2) == 1
  {
    assert BitLen(1) == 1 + BitLen(0);
  }

  lemma {:induction false} InTwo(p: nat)
    ensures InForest(1, 2, p) <==> p < 3
  {
    assert Pow2(0) == 1 && Pow2(1) == 2 && Pow2(2) == 4;
    if p < 2 {
      assert Row(1, p) == 0 && Shr(2, 0) == 2;
    } else if p == 2 {
      assert LeftChild(1, 2) == 0 && Row(1, 0) == 0 && Row(1, 2) == 1 && Shr(2, 1) == 1;
    }
  }

  /** Two leaves proved in the order 1, 0: asking for target 1 gives the hash of leaf 0. */
  lemma {:induction false} SubsetOutOfOrder(a: Hash, b: Hash)
    requires a != b && a != Empty && b != Empty
    ensures var g, f, proof := TwoLeaves(), map[2 := Node(Leaf(a), Leaf(b))], Proof([1, 0], []);
            && LayoutFor(g, TreeRows(2), 2) && Compact(g, f) && HonestProof(g, f, [b, a], proof)
            && At(g, f, 1) == Leaf(b) && [b, a][Rank(proof, 1)] == a
  {
    hide PlanFor, SortPositions, IndexOf, At, LayoutFor, Compact, TreeRows;
    assert Elems([1, 0]) == {0, 1};
    TwoLeavesLayout();
    CompactTwo(a, b);
    BothProved();
    LeavesOfTwo(a, b);
    SortsTwo();
  }

  lemma {:induction false} CompactTwo(a: Hash, b: Hash)
    requires a != Empty && b != Empty
    ensures Compact(TwoLeaves(), map[2 := Node(Leaf(a), Leaf(b))])
  {
    hide LayoutFor, TreeRows, Compact, Layout.WellShaped, ForestOf, TwoLeaves;
    TwoLeavesLayout();
    LayoutFits(TwoLeaves(), TreeRows(2), 2);
    ForestOfCompact(TwoLeaves(), [a, b]);
    ForestOfTwo(a, b);
  }

  lemma {:induction false} ForestOfTwo(a: Hash, b: Hash)
    requires a != Empty && b != Empty
    ensures ForestOf(TwoLeaves(), [a, b]) == map[2 := Node(Leaf(a), Leaf(b))]
  {
    var g, slots := TwoLeaves(), [a, b];
    assert Collapse(g, slots, 0) == Leaf(a) && Collapse(g, slots, 1) == Leaf(b);
    CollapseStep(g, slots, 2);
    hide Collapse;
    OneRootOfTwo();
    assert ForestOf(g, slots).Keys == {2};
  }

  lemma OneRootOfTwo()
    ensures forall p :: p in TwoLeaves().nodes && TwoLeaves().IsRoot(p) <==> p == 2
  {
    var g := TwoLeaves();
    assert g.Up(0) == 2 && g.Up(1) == 2 && g.Up(2) == 3;
  }

  lemma LeavesOfTwo(a: Hash, b: Hash)
    ensures var g, f := TwoLeaves(), map[2 := Node(Leaf(a), Leaf(b))]; At(g, f, 0) == Leaf(a) && At(g, f, 1) == Leaf(b)
  {
    var g, f := TwoLeaves(), map[2 := Node(Leaf(a), Leaf(b))];
    assert g.Up(0) == 2 && g.Up(1) == 2 && g.Up(2) == 3;
    assert At(g, f, 2) == f[2];
  }

  lemma SortsTwo()
    ensures SortPositions([1, 0]) == [0, 1] && IndexOf([0, 1], 1) == 1
  {
    assert [1, 0][1..] == [0] && [0][1..] == [] && [0, 1][1..] == [1];
  }

  lemma {:induction false} BothProved()
    ensures PlanFor(TwoLeaves(), {0, 1}).proof == []
  {
    hide PlanUpTo;
    var g := TwoLeaves();
    var s := PlanFor(g, {0, 1}).proof;
    assert |s| > 0 ==> s[0] in s;
    assert g.WellShaped();
    assert Touched(g, {0, 1}, 0) && Touched(g, {0, 1}, 1);
    assert g.Up(2) == 3 && g.IsRoot(2);
    PlanMeaning(g, {0, 1}, g.m);
  }
}
