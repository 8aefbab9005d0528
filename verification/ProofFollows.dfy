/** The lists of a proof follow a deletion. */
module ProofFollows {
  import opened Hashes
  import opened Positions
  import opened Layouts
  import opened Shape
  import opened Entries
  import opened Calculation
  import opened Forests
  import opened Honest
  import opened Deletion
  import opened OneToOne
  import opened ProofMoves
  import opened Sequential
  import opened Relocation
  import opened NewPositions
  import opened Stumps
  import opened ProofRemove

  /** The leaves in `s`, with their hashes. */
  ghost predicate LeafList(g: Layout, f: Forest, s: set<nat>, list: seq<Entry>) {
    Sorted(list) && forall e: Entry :: e in list <==> e.pos in s && At(g, f, e.pos) == Leaf(e.hash)
  }

  /** The proof hashes for `s` of what is left. */
  ghost predicate LeftList(g: Layout, f: Forest, d: set<nat>, s: set<nat>, list: seq<Entry>) {
    Distinct(list) && forall e: Entry :: e.hash != Empty ==>
        (e in list <==> IsProofPos(g, s, e.pos) && LeftHash(g, f, d, e))
  }

  /** Hashes of what is left, at positions a proof for `s` must supply. */
  ghost predicate SomeLeft(g: Layout, f: Forest, d: set<nat>, s: set<nat>, list: seq<Entry>) {
    Distinct(list) && forall e: Entry :: e in list && e.hash != Empty ==>
          IsProofPos(g, s, e.pos) && LeftHash(g, f, d, e)
  }

  lemma LeftSome(g: Layout, f: Forest, d: set<nat>, s: set<nat>, list: seq<Entry>)
    requires LeftList(g, f, d, s, list)
    ensures SomeLeft(g, f, d, s, list)
  {
  }

  /** The entries of a list after moving. */
  ghost predicate AfterMove(g: Layout, ds: seq<nat>, list: seq<Entry>, after: seq<Entry>) {
    Sorted(after) && forall e: Entry :: e in after <==>
          exists x :: x in list && x.hash != Empty && e == MovedEntry(g, ds, x)
  }

  lemma {:induction false} LeafEntry(g: Layout, f: Forest, d: set<nat>, ds: seq<nat>, s: set<nat>, list: seq<Entry>,
                                     x: Entry)
    requires Deletable(g, f, d) && Largest(g, d, ds) && Stay(g, f, d, s) && LeafList(g, f, s, list) && x in list
    ensures Kept(g, f, d, x.pos) && Clear(g, ds, x.pos) && MoveAll(g, ds, x.pos) == NewPos(g, d, x.pos)
    ensures x.hash != Empty && At(g, f, x.pos) == Leaf(x.hash)
    ensures At(g, Deleted(g, f, d), NewPos(g, d, x.pos)) == Leaf(x.hash)
  {
    hide At, Rem, NewPos, MoveAll, SolidExcept, Deleted, Largest;
    StayKept(g, f, d, s, x.pos);
    Relocated(g, f, d, ds, x.pos);
    AtFits(g, f, x.pos);
    StayMoved(g, f, d, s);
  }

  lemma {:induction false} LeavesMovable(g: Layout, f: Forest, d: set<nat>, ds: seq<nat>, s: set<nat>, list: seq<Entry>)
    requires Deletable(g, f, d) && Largest(g, d, ds) && Stay(g, f, d, s) && LeafList(g, f, s, list)
    ensures Movable(g, ds, list, true)
  {
    hide At, Rem, NewPos, MoveAll, SolidExcept, Deleted, Deletable, Stay, Clear, Kept;
    forall e | e in list
      ensures Clear(g, ds, e.pos)
    {
      LeafEntry(g, f, d, ds, s, list, e);
    }
    forall i, j | 0 <= i < j < |list|
      ensures MoveAll(g, ds, list[i].pos) != MoveAll(g, ds, list[j].pos)
    {
      assert list[i] in list && list[j] in list;
      LeafEntry(g, f, d, ds, s, list, list[i]);
      LeafEntry(g, f, d, ds, s, list, list[j]);
      if MoveAll(g, ds, list[i].pos) == MoveAll(g, ds, list[j].pos) {
        LeavesInjective(g, f, d, list[i].pos, list[j].pos);
      }
    }
  }

  /** The leaves that stay, at their new positions. */
  lemma {:induction false} LeavesFollow(g: Layout, f: Forest, d: set<nat>, ds: seq<nat>, s: set<nat>, list: seq<Entry>,
                                        after: seq<Entry>)
    requires Deletable(g, f, d) && Largest(g, d, ds) && Stay(g, f, d, s) && LeafList(g, f, s, list)
    requires AfterMove(g, ds, list, after)
    ensures LeafList(g, Deleted(g, f, d), Moved(g, d, s), after)
  {
    hide At, Rem, NewPos, MoveAll, SolidExcept, Deleted, Deletable, Stay, Clear, Kept, Largest;
    var f', s' := Deleted(g, f, d), Moved(g, d, s);
    forall e: Entry
      ensures e in after <==> e.pos in s' && At(g, f', e.pos) == Leaf(e.hash)
    {
      if e in after {
        var x :| x in list && x.hash != Empty && e == MovedEntry(g, ds, x);
        LeafEntry(g, f, d, ds, s, list, x);
      }
      if e.pos in s' && At(g, f', e.pos) == Leaf(e.hash) {
        var p :| p in s && NewPos(g, d, p) == e.pos;
        StayLeaf(g, f, d, s, p);
        var x := Entry(p, At(g, f, p).hash);
        assert x in list;
        LeafEntry(g, f, d, ds, s, list, x);
        assert e == MovedEntry(g, ds, x);
      }
    }
  }

  lemma StayLeaf(g: Layout, f: Forest, d: set<nat>, s: set<nat>, p: nat)
    requires Stay(g, f, d, s) && p in s
    ensures At(g, f, p).Leaf?
  {
  }

  lemma {:induction false} ProofEntry(g: Layout, f: Forest, d: set<nat>, ds: seq<nat>, s: set<nat>, x: Entry)
    requires Deletable(g, f, d) && Largest(g, d, ds) && Stay(g, f, d, s) && IsProofPos(g, s, x.pos) &&
             LeftHash(g, f, d, x)
    ensures Kept(g, f, d, x.pos) && Clear(g, ds, x.pos) && MoveAll(g, ds, x.pos) == NewPos(g, d, x.pos)
    ensures KeepsPlace(g, d, x.pos) && !g.IsRoot(NewPos(g, d, x.pos))
    ensures IsProofPos(g, Moved(g, d, s), NewPos(g, d, x.pos))
    ensures Merkle(At(g, Deleted(g, f, d), NewPos(g, d, x.pos))) == x.hash
  {
    hide At, Rem, NewPos, MoveAll, SolidExcept, Deleted, Largest, Gone, Touched, Merkle;
    var q := x.pos;
    TouchedRemains(g, f, d, s, Sibling(q));
    NonRootSibling(g, q);
    AtUp(g, f, Sibling(q));
    GoneIff(g, f, d, Sibling(q));
    Relocated(g, f, d, ds, q);
    ProofPosMoved(g, f, d, s, q);
  }

  lemma NonRootSibling(g: Layout, q: nat)
    requires g.WellShaped() && q in g.nodes && !g.IsRoot(q)
    ensures !g.IsRoot(Sibling(q)) && Sibling(Sibling(q)) == q
  {
    g.NonRootFacts(q);
  }

  lemma {:induction false} ProofsMovable(g: Layout, f: Forest, d: set<nat>, ds: seq<nat>, s: set<nat>, list: seq<Entry>)
    requires Deletable(g, f, d) && Largest(g, d, ds) && Stay(g, f, d, s) && SomeLeft(g, f, d, s, list)
    ensures Movable(g, ds, list, false)
  {
    hide At, Rem, NewPos, MoveAll, SolidExcept, Deleted, Deletable, Stay, Clear, Kept, IsProofPos, LeftHash, KeepsPlace;
    forall e | e in list && e.hash != Empty
      ensures Clear(g, ds, e.pos) && !g.IsRoot(MoveAll(g, ds, e.pos))
    {
      ProofEntry(g, f, d, ds, s, e);
    }
    forall i, j | 0 <= i < j < |list| && list[i].hash != Empty && list[j].hash != Empty
      ensures MoveAll(g, ds, list[i].pos) != MoveAll(g, ds, list[j].pos)
    {
      assert list[i] in list && list[j] in list;
      ProofEntry(g, f, d, ds, s, list[i]);
      ProofEntry(g, f, d, ds, s, list[j]);
      if MoveAll(g, ds, list[i].pos) == MoveAll(g, ds, list[j].pos) {
        HighestInjective(g, f, d, list[i].pos, list[j].pos);
      }
    }
  }

  /** The proof hashes, at their new positions. */
  lemma {:induction false} ProofsFollow(g: Layout, f: Forest, d: set<nat>, ds: seq<nat>, s: set<nat>, list: seq<Entry>,
                                        after: seq<Entry>)
    requires Deletable(g, f, d) && Largest(g, d, ds) && Stay(g, f, d, s) && LeftList(g, f, d, s, list)
    requires AfterMove(g, ds, list, after)
    ensures forall e: Entry :: e in after <==>
              IsProofPos(g, Moved(g, d, s), e.pos) && e.hash == Merkle(At(g, Deleted(g, f, d), e.pos))
  {
    hide At, Rem, NewPos, MoveAll, SolidExcept, Deleted, Deletable, Stay, Clear, Kept, IsProofPos, LeftHash, KeepsPlace,
         Moved, Merkle, Largest;
    var f', s' := Deleted(g, f, d), Moved(g, d, s);
    forall e: Entry
      ensures e in after <==> IsProofPos(g, s', e.pos) && e.hash == Merkle(At(g, f', e.pos))
    {
      if e in after {
        var x :| x in list && x.hash != Empty && e == MovedEntry(g, ds, x);
        ProofEntry(g, f, d, ds, s, x);
      }
      if IsProofPos(g, s', e.pos) && e.hash == Merkle(At(g, f', e.pos)) {
        var q := ProofPosOrigin(g, f, d, s, e.pos);
        var x := LeftEntry(g, f, d, s, q);
        ProofEntry(g, f, d, ds, s, x);
        assert x in list && e == MovedEntry(g, ds, x);
      }
    }
  }

  lemma {:induction false} LeftEntry(g: Layout, f: Forest, d: set<nat>, s: set<nat>, q: nat) returns (x: Entry)
    requires Deletable(g, f, d) && IsProofPos(g, s, q) && !Remains(g, f, d, q).Nil?
    ensures x.pos == q && LeftHash(g, f, d, x) && x.hash != Empty
  {
    AtFits(g, f, q);
    RemOk(g, d, q, At(g, f, q));
    MerkleEmpty(Remains(g, f, d, q));
    x := Entry(q, Merkle(Remains(g, f, d, q)));
  }

  /** An honest proof for the leaves that stay, after the deletion. */
  lemma {:induction false} ProofAfter(g: Layout, f: Forest, d: set<nat>, ds: seq<nat>, s: set<nat>, leaves: seq<Entry>,
                                      hashes: seq<Entry>, leaves': seq<Entry>, hashes': seq<Entry>)
    requires Deletable(g, f, d) && Largest(g, d, ds) && Stay(g, f, d, s)
    requires LeafList(g, f, s, leaves) && LeftList(g, f, d, s, hashes)
    requires AfterMove(g, ds, leaves, leaves') && AfterMove(g, ds, hashes, hashes')
    ensures HonestProof(g, Deleted(g, f, d), HashesOf(leaves'), Proof(PositionsOf(leaves'), HashesOf(hashes')))
    ensures Elems(PositionsOf(leaves')) == Moved(g, d, s) && Ascending(PositionsOf(leaves'))
  {
    hide At, Rem, NewPos, MoveAll, SolidExcept, Deleted, IsProofPos, LeftHash, Moved, Merkle, Largest, LeftList,
         HonestProof;
    LeavesFollow(g, f, d, ds, s, leaves, leaves');
    ProofsFollow(g, f, d, ds, s, hashes, hashes');
    StayMoved(g, f, d, s);
    MakeHonest(g, Deleted(g, f, d), leaves', hashes', Moved(g, d, s));
  }
}
