/** A cached proof after a block of deletions. */
module ProofRemove {
  import opened Hashes
  import opened Options
  import opened Positions
  import opened Layouts
  import opened Shape
  import opened Entries
  import opened Calculation
  import opened Forests
  import opened Honest
  import opened Deletion
  import opened ProofMoves
  import opened Stumps

  /** Sorted targets with the hashes of an honest proof are its leaves. */
  lemma {:induction false} SortedLeaves(g: Layout, f: Forest, hashes: seq<Hash>, proof: Proof)
    requires HonestProof(g, f, hashes, proof)
    ensures var s := SortEntries(Zip(proof.targets, hashes));
            && Sorted(s)
            && (forall e :: e in s <==> e.pos in Elems(proof.targets) && At(g, f, e.pos) == Leaf(e.hash))
  {
    hide SortEntries, At, PlanFor;
    var z := Zip(proof.targets, hashes);
    SortFacts(z);
    forall e
      ensures e in z <==> e.pos in Elems(proof.targets) && At(g, f, e.pos) == Leaf(e.hash)
    {
      if e in z {
        var i :| 0 <= i < |z| && z[i] == e;
        assert proof.targets[i] in proof.targets;
      }
      if e.pos in Elems(proof.targets) && At(g, f, e.pos) == Leaf(e.hash) {
        var i :| 0 <= i < |proof.targets| && proof.targets[i] == e.pos;
        assert z[i] == e;
      }
    }
  }

  /** A list of leaves and a list of proof hashes make an honest proof. */
  lemma {:induction false} MakeHonest(g: Layout, f: Forest, leaves: seq<Entry>, hashes: seq<Entry>, s: set<nat>)
    requires Sorted(leaves) && Sorted(hashes) && g.WellShaped()
    requires forall e :: e in leaves <==> e.pos in s && At(g, f, e.pos) == Leaf(e.hash)
    requires forall x :: x in s ==> At(g, f, x).Leaf?
    requires forall e :: e in hashes <==> IsProofPos(g, s, e.pos) && e.hash == Merkle(At(g, f, e.pos))
    ensures HonestProof(g, f, HashesOf(leaves), Proof(PositionsOf(leaves), HashesOf(hashes)))
    ensures Elems(PositionsOf(leaves)) == s && Ascending(PositionsOf(leaves))
  {
    hide At, PlanUpTo, Layout.WellShaped, IsProofPos, Merkle;
    LeafElems(g, f, leaves, s);
    var needed := PlanFor(g, s).proof;
    PlanMeaning(g, s, g.m);
    PlanAscending(g, s, g.m);
    forall x
      ensures x in PositionsOf(hashes) <==> x in needed
    {
      if x in needed {
        assert Entry(x, Merkle(At(g, f, x))) in hashes;
        var i :| 0 <= i < |hashes| && hashes[i] == Entry(x, Merkle(At(g, f, x)));
        assert PositionsOf(hashes)[i] == x;
      }
      if x in PositionsOf(hashes) {
        var i :| 0 <= i < |hashes| && PositionsOf(hashes)[i] == x;
        assert hashes[i] in hashes;
        ProofPosBound(g, s, x);
      }
    }
    AscendingUnique(PositionsOf(hashes), needed);
    assert forall i :: 0 <= i < |hashes| ==> hashes[i] in hashes;
    assert forall i :: 0 <= i < |leaves| ==> leaves[i] in leaves;
  }

  lemma {:induction false} LeafElems(g: Layout, f: Forest, leaves: seq<Entry>, s: set<nat>)
    requires Sorted(leaves)
    requires forall e :: e in leaves <==> e.pos in s && At(g, f, e.pos) == Leaf(e.hash)
    requires forall x :: x in s ==> At(g, f, x).Leaf?
    ensures Elems(PositionsOf(leaves)) == s && Ascending(PositionsOf(leaves))
  {
    hide At;
    forall x
      ensures x in PositionsOf(leaves) <==> x in s
    {
      if x in s {
        var e := Entry(x, At(g, f, x).hash);
        assert e in leaves;
        var i :| 0 <= i < |leaves| && leaves[i] == e;
        assert PositionsOf(leaves)[i] == x;
      }
      if x in PositionsOf(leaves) {
        var i :| 0 <= i < |leaves| && PositionsOf(leaves)[i] == x;
        assert leaves[i] in leaves;
      }
    }
  }

  /** Where a pointer into an ascending list stops tells whether a position is in it. */
  lemma {:induction false} PointerFinds(s: seq<nat>, idx: nat, pos: nat)
    requires Ascending(s) && idx <= |s| && (forall k :: 0 <= k < idx ==> s[k] < pos) && (idx < |s| ==> s[idx] >= pos)
    ensures pos in s <==> idx < |s| && s[idx] == pos
  {
  }

  lemma {:induction false} EntryFound(s: seq<Entry>, idx: nat)
    requires Sorted(s) && idx < |s|
    ensures s[idx].pos in MapOf(s) && MapOf(s)[s[idx].pos] == s[idx].hash
  {
    hide MapOf;
    MapOfFacts(s);
    assert s[idx] in s;
  }

  lemma {:induction false} MapOfKeys(s: seq<Entry>, p: nat)
    requires Sorted(s)
    ensures p in MapOf(s) <==> p in PositionsOf(s)
  {
    hide MapOf;
    MapOfFacts(s);
    if p in PositionsOf(s) {
      var i :| 0 <= i < |s| && PositionsOf(s)[i] == p;
      assert s[i] in s;
    }
    if p in MapOf(s) {
      assert Entry(p, MapOf(s)[p]) in s;
      var i :| 0 <= i < |s| && s[i] == Entry(p, MapOf(s)[p]);
      assert PositionsOf(s)[i] == p;
    }
  }

  /** What becomes of one proof hash: dropped, replaced, or kept. */
  ghost function Pick(extra: seq<nat>, u: map<nat, Hash>, x: Entry): seq<Entry> {
    if x.pos in extra then []
    else if x.pos in u then if u[x.pos] != Empty then [Entry(x.pos, u[x.pos])] else []
    else [x]
  }

  ghost function PickAll(extra: seq<nat>, u: map<nat, Hash>, s: seq<Entry>, i: nat): seq<Entry>
    requires i <= |s|
  {
    if i == 0 then [] else PickAll(extra, u, s, i - 1) + Pick(extra, u, s[i - 1])
  }

  /** Of the old proof hashes, keep those still needed, with their new hashes. */
  method KeepNeeded(oldProofs: seq<Entry>, extraPos: seq<nat>, updated: seq<Entry>) returns (newProofs: seq<Entry>)
    requires Sorted(oldProofs) && Ascending(extraPos) && Sorted(updated)
    ensures newProofs == PickAll(extraPos, MapOf(updated), oldProofs, |oldProofs|)
  {
    hide MapOf;
    newProofs := [];
    var idx: nat, extraIdx: nat := 0, 0;
    for i := 0 to |oldProofs|
      invariant newProofs == PickAll(extraPos, MapOf(updated), oldProofs, i)
      invariant idx <= |updated| && extraIdx <= |extraPos|
      invariant i < |oldProofs| ==> forall k :: 0 <= k < extraIdx ==> extraPos[k] < oldProofs[i].pos
      invariant i < |oldProofs| ==> forall k :: 0 <= k < idx ==> updated[k].pos < oldProofs[i].pos
    {
      var pos := oldProofs[i].pos;
      while extraIdx < |extraPos| && extraPos[extraIdx] < pos
        invariant extraIdx <= |extraPos| && forall k :: 0 <= k < extraIdx ==> extraPos[k] < pos
      {
        extraIdx := extraIdx + 1;
      }
      PointerFinds(extraPos, extraIdx, pos);
      if extraIdx < |extraPos| && extraPos[extraIdx] == pos {
        continue;
      }
      idx := Seek(updated, idx, pos);
      if idx < |updated| && updated[idx].pos == pos {
        if updated[idx].hash != Empty {
          newProofs := newProofs + [Entry(pos, updated[idx].hash)];
        }
      } else {
        newProofs := newProofs + [oldProofs[i]];
      }
    }
  }

  /** Move a pointer on to the first position that is not before `pos`. */
  method Seek(s: seq<Entry>, from: nat, pos: nat) returns (idx: nat)
    requires Sorted(s) && from <= |s| && forall k :: 0 <= k < from ==> s[k].pos < pos
    ensures from <= idx <= |s| && forall k :: 0 <= k < idx ==> s[k].pos < pos
    ensures pos in MapOf(s) <==> idx < |s| && s[idx].pos == pos
    ensures idx < |s| && s[idx].pos == pos ==> pos in MapOf(s) && MapOf(s)[pos] == s[idx].hash
  {
    hide MapOf;
    idx := from;
    while idx < |s| && s[idx].pos < pos
      invariant from <= idx <= |s| && forall k :: 0 <= k < idx ==> s[k].pos < pos
    {
      idx := idx + 1;
    }
    PointerFinds(PositionsOf(s), idx, pos);
    MapOfKeys(s, pos);
    if idx < |s| {
      EntryFound(s, idx);
    }
  }

  ghost function Found(u: map<nat, Hash>, missing: seq<nat>, i: nat): seq<Entry>
    requires i <= |missing|
  {
    if i == 0 then []
    else Found(u, missing, i - 1) + if missing[i - 1] in u then [Entry(missing[i - 1], u[missing[i - 1]])] else []
  }

  /** Proof hashes that were computed before and are needed now. */
  method AddMissing(missingPos: seq<nat>, updated: seq<Entry>) returns (found: seq<Entry>)
    requires Ascending(missingPos) && Sorted(updated)
    ensures found == Found(MapOf(updated), missingPos, |missingPos|)
  {
    hide MapOf;
    found := [];
    var idx: nat := 0;
    for i := 0 to |missingPos|
      invariant found == Found(MapOf(updated), missingPos, i)
      invariant idx <= |updated|
      invariant i < |missingPos| ==> forall k :: 0 <= k < idx ==> updated[k].pos < missingPos[i]
    {
      idx := Seek(updated, idx, missingPos[i]);
      if idx < |updated| && updated[idx].pos == missingPos[i] {
        found := found + [Entry(missingPos[i], updated[idx].hash)];
      }
    }
  }

  ghost predicate Picked(extra: seq<nat>, u: map<nat, Hash>, s: seq<Entry>, x: nat, e: Entry) {
    x < |s| && e in Pick(extra, u, s[x])
  }

  lemma {:induction false} PickFacts(extra: seq<nat>, u: map<nat, Hash>, s: seq<Entry>, i: nat)
    requires i <= |s| && Sorted(s)
    ensures Sorted(PickAll(extra, u, s, i))
    ensures forall e :: e in PickAll(extra, u, s, i) ==> exists x: nat :: x < i && Picked(extra, u, s, x, e)
    ensures forall e, x: nat :: x < i && Picked(extra, u, s, x, e) ==> e in PickAll(extra, u, s, i)
  {
    if i > 0 {
      PickFacts(extra, u, s, i - 1);
      var init, last := PickAll(extra, u, s, i - 1), Pick(extra, u, s[i - 1]);
      forall k | 0 <= k < |init|
        ensures init[k].pos < s[i - 1].pos
      {
        assert init[k] in init;
        var x: nat :| x < i - 1 && Picked(extra, u, s, x, init[k]);
      }
      forall e | e in init + last
        ensures exists x: nat :: x < i && Picked(extra, u, s, x, e)
      {
        if e in last { assert Picked(extra, u, s, i - 1, e); }
      }
    }
  }

  lemma {:induction false} FoundFacts(u: map<nat, Hash>, missing: seq<nat>, i: nat)
    requires i <= |missing| && Ascending(missing)
    ensures Sorted(Found(u, missing, i))
    ensures forall e :: e in Found(u, missing, i) <==> e.pos in missing[..i] && e.pos in u && e.hash == u[e.pos]
  {
    if i > 0 {
      FoundFacts(u, missing, i - 1);
      var init := Found(u, missing, i - 1);
      assert missing[..i] == missing[..i - 1] + [missing[i - 1]];
      forall k | 0 <= k < |init|
        ensures init[k].pos < missing[i - 1]
      {
        assert init[k] in init;
      }
    }
  }

  /** The lists from which the new proof is put together. */
  ghost predicate RemoveLists(g: Layout, f: Forest, d: set<nat>, c: set<nat>, oldProofs: seq<Entry>, needed: seq<nat>,
                              extra: seq<nat>, missing: seq<nat>, u: map<nat, Hash>)
  {
    && Compact(g, f) && Deletable(g, f, d) && (forall x :: x in d || x in c ==> At(g, f, x).Leaf?)
    && Sorted(oldProofs) && Ascending(missing)
    && (forall e :: e in oldProofs <==> IsProofPos(g, c, e.pos) && e.hash == Merkle(At(g, f, e.pos)))
    && (forall x: nat :: x in needed <==> IsProofPos(g, c - d, x))
    && (forall x: nat :: x in extra <==> IsProofPos(g, c, x) && x !in needed)
    && (forall x: nat :: x in missing <==> x in needed && !IsProofPos(g, c, x) && x !in d)
    && (forall p: nat :: p in u <==> Touched(g, d, p))
    && (forall p: nat :: p in u ==> u[p] == Merkle(Remains(g, f, d, p)))
  }

  /** The hash of what is left, when something is left. */
  ghost predicate LeftHash(g: Layout, f: Forest, d: set<nat>, e: Entry) {
    e.hash != Empty && !Remains(g, f, d, e.pos).Nil? && e.hash == Merkle(Remains(g, f, d, e.pos))
  }

  lemma {:induction false} LeftHashIff(g: Layout, f: Forest, d: set<nat>, e: Entry)
    requires Compact(g, f) && Deletable(g, f, d) && e.pos in g.nodes
    ensures LeftHash(g, f, d, e) <==> e.hash != Empty && e.hash == Merkle(Remains(g, f, d, e.pos))
    ensures !Remains(g, f, d, e.pos).Nil? <==> Merkle(Remains(g, f, d, e.pos)) != Empty
    ensures !Touched(g, d, e.pos) ==> Remains(g, f, d, e.pos) == At(g, f, e.pos)
  {
    hide At, Rem, Touched, SolidExcept, Merkle;
    AtFits(g, f, e.pos);
    RemOk(g, d, e.pos, At(g, f, e.pos));
    MerkleEmpty(Remains(g, f, d, e.pos));
    if !Touched(g, d, e.pos) { RemUntouched(g, f, d, e.pos); }
  }

  /** A position needed for the leaves that stay was needed before, or was computed
      through deleted leaves. */
  lemma {:induction false} NeededBefore(g: Layout, d: set<nat>, c: set<nat>, p: nat)
    requires IsProofPos(g, c - d, p)
    ensures IsProofPos(g, c, p) || Touched(g, d, p)
    ensures p in g.nodes
  {
    hide Touched;
    var s := c - d;
    assert c == s + c * d;
    TouchedUnion(g, s, c * d, p);
    TouchedUnion(g, s, c * d, Sibling(p));
    assert d == d + c * d;
    TouchedUnion(g, d, c * d, p);
  }

  /** The new list has a hash for every needed position at which something is left, and
      no other hash that is not empty. */
  lemma {:induction false} NewProofHashes(g: Layout, f: Forest, d: set<nat>, c: set<nat>, oldProofs: seq<Entry>,
                                          needed: seq<nat>, extra: seq<nat>, missing: seq<nat>, u: map<nat, Hash>,
                                          e: Entry)
    requires RemoveLists(g, f, d, c, oldProofs, needed, extra, missing, u) && e.hash != Empty
    ensures var list := PickAll(extra, u, oldProofs, |oldProofs|) + Found(u, missing, |missing|);
            e in list <==> IsProofPos(g, c - d, e.pos) && LeftHash(g, f, d, e)
  {
    hide At, Rem, Touched, SolidExcept, Merkle, IsProofPos, LeftHash, PickAll, Found, Layout.WellShaped;
    var picked, found := PickAll(extra, u, oldProofs, |oldProofs|), Found(u, missing, |missing|);
    PickFacts(extra, u, oldProofs, |oldProofs|);
    FoundFacts(u, missing, |missing|);
    assert missing[..|missing|] == missing;
    if e in picked {
      var x: nat :| x < |oldProofs| && Picked(extra, u, oldProofs, x, e);
      assert oldProofs[x] in oldProofs;
      ProofPosBound(g, c - d, e.pos);
      LeftHashIff(g, f, d, e);
    }
    if e in found {
      ProofPosBound(g, c - d, e.pos);
      LeftHashIff(g, f, d, e);
    }
    if IsProofPos(g, c - d, e.pos) && LeftHash(g, f, d, e) {
      NeededBefore(g, d, c, e.pos);
      LeftHashIff(g, f, d, e);
      if IsProofPos(g, c, e.pos) {
        var x := Entry(e.pos, Merkle(At(g, f, e.pos)));
        assert x in oldProofs;
        var i :| 0 <= i < |oldProofs| && oldProofs[i] == x;
        assert Picked(extra, u, oldProofs, i, e);
      } else {
        DeletedNil(g, f, d, e.pos);
      }
    }
  }

  lemma DeletedNil(g: Layout, f: Forest, d: set<nat>, p: nat)
    ensures p in d ==> Remains(g, f, d, p).Nil?
  {
  }

  lemma {:induction false} NewProofDistinct(g: Layout, f: Forest, d: set<nat>, c: set<nat>, oldProofs: seq<Entry>,
                                            needed: seq<nat>, extra: seq<nat>, missing: seq<nat>, u: map<nat, Hash>)
    requires RemoveLists(g, f, d, c, oldProofs, needed, extra, missing, u)
    ensures Distinct(PickAll(extra, u, oldProofs, |oldProofs|) + Found(u, missing, |missing|))
  {
    hide At, Rem, Touched, SolidExcept, Merkle, IsProofPos, LeftHash, PickAll, Found, Layout.WellShaped;
    var picked, found := PickAll(extra, u, oldProofs, |oldProofs|), Found(u, missing, |missing|);
    PickFacts(extra, u, oldProofs, |oldProofs|);
    FoundFacts(u, missing, |missing|);
    assert missing[..|missing|] == missing;
    forall i, j | 0 <= i < |picked| && 0 <= j < |found|
      ensures picked[i].pos != found[j].pos
    {
      assert picked[i] in picked && found[j] in found;
      var x: nat :| x < |oldProofs| && Picked(extra, u, oldProofs, x, picked[i]);
      assert oldProofs[x] in oldProofs;
    }
  }
}
