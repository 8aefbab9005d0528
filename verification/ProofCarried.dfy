/** A proof carried over an addition. */
module ProofCarried {
  import opened Hashes
  import opened Positions
  import opened Layouts
  import opened Shape
  import opened Entries
  import opened Forests
  import opened Honest
  import opened Deletion
  import opened OneToOne
  import opened ProofMoves
  import opened Sequential
  import opened Relocation
  import opened NewPositions
  import opened Slots
  import opened Uniqueness
  import opened Additions
  import opened Carry
  import opened StumpAdd
  import opened UpdateData
  import opened ProofRemove
  import opened ProofFollows

  /** New leaves that are to be remembered. */
  ghost predicate NewLeaves(before: seq<Hash>, adds: seq<Hash>, n: set<nat>) {
    forall x :: x in n ==> |before| <= x < |before| + |adds|
  }

  /** The set-up: `s` are remembered leaves of the old forest, `n` new leaves. */
  ghost predicate Carried(o: Layout, g: Layout, before: seq<Hash>, adds: seq<Hash>, s: set<nat>, n: set<nat>) {
    && Grows(o, g, before, adds) && |before| + |adds| <= g.m
    && NewLeaves(before, adds, n)
    && forall x :: x in s ==> x in o.nodes && At(o, ForestOf(o, before), x).Leaf?
  }

  /** A new leaf is a leaf of the assembled forest. */
  lemma {:induction false} NewLeafAt(o: Layout, g: Layout, before: seq<Hash>, adds: seq<Hash>, x: nat)
    requires Grows(o, g, before, adds) && |before| <= x < |before| + |adds| <= g.m
    ensures At(g, AssembledForest(o, g, before + adds), x) == Leaf(adds[x - |before|]) == Collapse(g, before + adds, x)
    ensures x in g.nodes && x !in o.nodes && Upper(o, g, x) && NewOrUsed(o, g, x)
  {
    hide At, AssembledForest;
    AtUpper(o, g, before, adds, x);
    assert Assembled(o, g, before + adds, x) == Collapse(g, before + adds, x);
  }

  lemma {:induction false} WrittenOverNil(o: Layout, g: Layout, before: seq<Hash>, adds: seq<Hash>, x: nat)
    requires Grows(o, g, before, adds) && x in WrittenOver(o, g, before + adds)
    ensures At(g, AssembledForest(o, g, before + adds), x).Nil? && o.IsRoot(x)
  {
    hide At, AssembledForest;
    AtUpper(o, g, before, adds, x);
  }

  /** The remembered leaves stay when the empty roots are deleted. */
  lemma {:induction false} CarriedStay(o: Layout, g: Layout, before: seq<Hash>, adds: seq<Hash>, s: set<nat>,
                                       n: set<nat>)
    requires Carried(o, g, before, adds, s, n)
    ensures Stay(g, AssembledForest(o, g, before + adds), WrittenOver(o, g, before + adds), s + n)
    ensures Stay(g, AssembledForest(o, g, before + adds), WrittenOver(o, g, before + adds), s)
    ensures Stay(g, AssembledForest(o, g, before + adds), WrittenOver(o, g, before + adds), n)
  {
    hide At, AssembledForest, WrittenOver, ForestOf, Grows;
    var v, w := AssembledForest(o, g, before + adds), WrittenOver(o, g, before + adds);
    forall x | x in s
      ensures At(g, v, x).Leaf?
    {
      AtOld(o, g, before, adds, x);
    }
    forall x | x in n
      ensures At(g, v, x).Leaf?
    {
      NewLeafAt(o, g, before, adds, x);
    }
    forall x | x in w
      ensures x !in s + n
    {
      WrittenOverNil(o, g, before, adds, x);
    }
  }

  /** Inside the old trees only the old leaves count. */
  lemma {:induction false} TouchedOld(o: Layout, g: Layout, before: seq<Hash>, adds: seq<Hash>, s: set<nat>,
                                      n: set<nat>, p: nat)
    requires Grows(o, g, before, adds) && n !! o.nodes && p in o.nodes
    ensures Touched(g, s + n, p) <==> Touched(o, s, p)
    decreases p
  {
    o.NodeBound(p);
    if p >= o.m {
      o.ChildFacts(p);
      TouchedOld(o, g, before, adds, s, n, o.Left(p));
      TouchedOld(o, g, before, adds, s, n, o.Right(p));
    }
  }

  lemma {:induction false} ProofPosOld(o: Layout, g: Layout, before: seq<Hash>, adds: seq<Hash>, s: set<nat>,
                                       n: set<nat>, p: nat)
    requires Grows(o, g, before, adds) && n !! o.nodes && p in o.nodes && !o.IsRoot(p)
    ensures IsProofPos(g, s + n, p) <==> IsProofPos(o, s, p)
  {
    hide Touched;
    o.NonRootFacts(p);
    TouchedOld(o, g, before, adds, s, n, p);
    TouchedOld(o, g, before, adds, s, n, Sibling(p));
  }

  /** Inside the old trees nothing is deleted. */
  lemma {:induction false} OldInner(o: Layout, g: Layout, before: seq<Hash>, adds: seq<Hash>, p: nat)
    requires Grows(o, g, before, adds) && p in o.nodes && !o.IsRoot(p)
    ensures var v, w := AssembledForest(o, g, before + adds), WrittenOver(o, g, before + adds);
            Remains(g, v, w, p) == At(g, v, p) == At(o, ForestOf(o, before), p)
  {
    hide At, AssembledForest, ForestOf, Above, Layout.WellShaped, Rem, Collapse;
    var v, w := AssembledForest(o, g, before + adds), WrittenOver(o, g, before + adds);
    GrowsShaped(o, g, before, adds);
    AtOld(o, g, before, adds, p);
    ForestSolid(o, before, p);
    AssembledDeletable(o, g, before, adds);
    DeletableFits(g, v, w, p);
    forall x | x in w
      ensures !AtOrAbove(g, p, x)
    {
      if Above(g, p, x) {
        SameAbove(o, g, p, x);
        RootBelow(o, p, x);
      }
    }
    RemApart(g, w, p, At(g, v, p));
  }

  lemma {:induction false} DeletableFits(g: Layout, f: Forest, d: set<nat>, p: nat)
    requires Deletable(g, f, d)
    ensures FitsBelow(g, p, At(g, f, p)) && LeavesOk(At(g, f, p))
  {
    hide At, SolidExcept;
    AtFits(g, f, p);
  }

  /** A proof position of the old forest that is not a root of it. */
  lemma {:induction false} OldProofPos(o: Layout, g: Layout, before: seq<Hash>, adds: seq<Hash>, s: set<nat>, q: nat)
    requires Carried(o, g, before, adds, s, {}) && IsProofPos(o, s, q)
    ensures var v, w := AssembledForest(o, g, before + adds), WrittenOver(o, g, before + adds);
            var e := Entry(q, Merkle(At(o, ForestOf(o, before), q)));
            && IsProofPos(g, s, q) && LeftHash(g, v, w, e) && e.hash != Empty
            && At(g, v, q) == At(o, ForestOf(o, before), q)
  {
    hide At, AssembledForest, ForestOf, Rem, Collapse, Merkle, Touched, WrittenOver;
    GrowsShaped(o, g, before, adds);
    assert s + {} == s;
    ProofPosOld(o, g, before, adds, s, {}, q);
    OldInner(o, g, before, adds, q);
    ForestOfCompact(o, before);
    NeededPresent(o, ForestOf(o, before), s, q);
  }

  /** A needed position of a forest without empty places is not empty. */
  lemma {:induction false} NeededPresent(g: Layout, f: Forest, s: set<nat>, q: nat)
    requires Compact(g, f) && (forall x :: x in s ==> At(g, f, x).Leaf?) && IsProofPos(g, s, q)
    ensures !At(g, f, q).Nil? && Merkle(At(g, f, q)) != Empty
  {
    hide At, Merkle, Touched, SolidExcept, Layout.WellShaped;
    CompactShape(g, f);
    g.NonRootFacts(q);
    TouchedAt(g, f, s, Sibling(q));
    AtUp(g, f, Sibling(q));
    CompactNode(g, f, g.Up(q));
    AtFits(g, f, q);
    MerkleEmpty(At(g, f, q));
  }

  /** The old leaves and proof hashes, in the new rows, before anything moves. */
  ghost predicate OldLists(o: Layout, g: Layout, before: seq<Hash>, adds: seq<Hash>, s: set<nat>, leaves: seq<Entry>,
                           proofs: seq<Entry>)
  {
    && Carried(o, g, before, adds, s, {})
    && Sorted(leaves) && Sorted(proofs)
    && (forall e: Entry :: e in leaves <==> e.pos in s && At(o, ForestOf(o, before), e.pos) == Leaf(e.hash))
    && (forall e: Entry :: e in proofs <==>
          IsProofPos(o, s, e.pos) && e.hash == Merkle(At(o, ForestOf(o, before), e.pos)))
  }

  lemma {:induction false} OldListFacts(o: Layout, g: Layout, before: seq<Hash>, adds: seq<Hash>, s: set<nat>,
                                        leaves: seq<Entry>, proofs: seq<Entry>)
    requires OldLists(o, g, before, adds, s, leaves, proofs)
    ensures var v, w := AssembledForest(o, g, before + adds), WrittenOver(o, g, before + adds);
            && LeafList(g, v, s, leaves) && SomeLeft(g, v, w, s, proofs)
            && (forall e :: e in leaves || e in proofs ==> e.hash != Empty)
  {
    hide At, AssembledForest, ForestOf, Merkle, WrittenOver, IsProofPos, LeftHash, Grows;
    var v := AssembledForest(o, g, before + adds);
    forall e: Entry
      ensures e in leaves <==> e.pos in s && At(g, v, e.pos) == Leaf(e.hash)
      ensures e in leaves ==> e.hash != Empty
    {
      if e.pos in s {
        AtOld(o, g, before, adds, e.pos);
        AssembledDeletable(o, g, before, adds);
        DeletableFits(g, v, WrittenOver(o, g, before + adds), e.pos);
      }
    }
    forall e: Entry | e in proofs
      ensures IsProofPos(g, s, e.pos) && LeftHash(g, v, WrittenOver(o, g, before + adds), e) && e.hash != Empty
    {
      OldProofPos(o, g, before, adds, s, e.pos);
    }
  }

  /** After moving, the old proof hashes are hashes of the new forest. */
  lemma {:induction false} CarriedHashes(o: Layout, g: Layout, before: seq<Hash>, adds: seq<Hash>, s: set<nat>,
                                         leaves: seq<Entry>, proofs: seq<Entry>, ds: seq<nat>, after: seq<Entry>)
    requires OldLists(o, g, before, adds, s, leaves, proofs)
    requires Largest(g, WrittenOver(o, g, before + adds), ds) && AfterMove(g, ds, proofs, after)
    ensures AllTrue(g, before + adds, after)
    ensures forall q: nat :: IsProofPos(o, s, q) ==>
              Entry(NewPos(g, WrittenOver(o, g, before + adds), q), Merkle(At(o, ForestOf(o, before), q))) in after
  {
    hide At, AssembledForest, ForestOf, Merkle, WrittenOver, IsProofPos, LeftHash, Grows, Largest, NewPos, MoveAll,
         Deletable, Clear, Kept, KeepsPlace, Stay;
    var v, w := AssembledForest(o, g, before + adds), WrittenOver(o, g, before + adds);
    OldListFacts(o, g, before, adds, s, leaves, proofs);
    AssembledDeletable(o, g, before, adds);
    AddedForest(o, g, before, adds);
    CarriedStay(o, g, before, adds, s, {});
    forall e: Entry | e in after
      ensures TrueEntry(g, before + adds, e)
    {
      var x :| x in proofs && x.hash != Empty && e == MovedEntry(g, ds, x);
      ProofEntry(g, v, w, ds, s, x);
      NotEmptyTree(g, before + adds, e);
    }
    forall q: nat | IsProofPos(o, s, q)
      ensures Entry(NewPos(g, w, q), Merkle(At(o, ForestOf(o, before), q))) in after
    {
      var x := Entry(q, Merkle(At(o, ForestOf(o, before), q)));
      assert x in proofs;
      ProofEntry(g, v, w, ds, s, x);
      assert MovedEntry(g, ds, x) in after;
    }
  }

  lemma NotEmptyTree(g: Layout, slots: seq<Hash>, e: Entry)
    requires e.hash != Empty && e.hash == Merkle(At(g, ForestOf(g, slots), e.pos))
    ensures TrueEntry(g, slots, e)
  {
  }

  /** Every hash the proof needs after the addition is an old one, or was reported. */
  lemma {:induction false} NeededFound(o: Layout, g: Layout, before: seq<Hash>, adds: seq<Hash>, s: set<nat>,
                                       n: set<nat>, reported: seq<Entry>, carried: seq<Entry>, x: nat)
    requires Carried(o, g, before, adds, s, n) && Reported(o, g, before + adds, reported)
    requires forall q: nat :: IsProofPos(o, s, q) ==>
              Entry(NewPos(g, WrittenOver(o, g, before + adds), q), Merkle(At(o, ForestOf(o, before), q))) in carried
    requires IsProofPos(g, Moved(g, WrittenOver(o, g, before + adds), s + n), x)
    ensures var e := Entry(x, Merkle(At(g, ForestOf(g, before + adds), x))); e in reported || e in carried
  {
    hide At, AssembledForest, ForestOf, Merkle, WrittenOver, IsProofPos, Grows, NewPos, Deletable, Stay, Moved,
         Collapse, Rem, Upper, Layout.IsRoot;
    var v, w := AssembledForest(o, g, before + adds), WrittenOver(o, g, before + adds);
    AssembledDeletable(o, g, before, adds);
    AddedForest(o, g, before, adds);
    CarriedStay(o, g, before, adds, s, n);
    var q := ProofPosOrigin(g, v, w, s + n, x);
    ProofPosMoved(g, v, w, s + n, q);
    ProofPosNode(g, s + n, q);
    NewApart(o, g, before, adds, n);
    if q in o.nodes && !o.IsRoot(q) {
      ProofPosOld(o, g, before, adds, s, n, q);
      OldInner(o, g, before, adds, q);
    } else {
      UpperIs(o, g, q);
      UpperKept(o, g, before, adds, q);
    }
  }

  lemma ProofPosNode(g: Layout, s: set<nat>, q: nat)
    requires IsProofPos(g, s, q)
    ensures q in g.nodes && !g.IsRoot(q)
  {
  }

  lemma UpperIs(o: Layout, g: Layout, q: nat)
    requires q in g.nodes && !g.IsRoot(q) && !(q in o.nodes && !o.IsRoot(q))
    ensures Upper(o, g, q) && NewOrUsed(o, g, q)
  {
  }

  lemma NewApart(o: Layout, g: Layout, before: seq<Hash>, adds: seq<Hash>, n: set<nat>)
    requires Grows(o, g, before, adds) && |before| + |adds| <= g.m && NewLeaves(before, adds, n)
    ensures n !! o.nodes && n <= g.nodes
  {
    forall x | x in n
      ensures x !in o.nodes && x in g.nodes
    {
      NewLeafAt(o, g, before, adds, x);
    }
  }
}
