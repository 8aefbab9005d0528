/** A proof follows its leaves through a deletion. */
module ProofMoves {
  import opened Hashes
  import opened Positions
  import opened Layouts
  import opened Shape
  import opened Forests
  import opened Calculation
  import opened Honest
  import opened Deletion
  import opened OneToOne

  /** Leaves that stay. */
  ghost predicate Stay(g: Layout, f: Forest, d: set<nat>, s: set<nat>) {
    s !! d && forall x :: x in s ==> At(g, f, x).Leaf?
  }

  ghost function Moved(g: Layout, d: set<nat>, s: set<nat>): set<nat> {
    set x | x in s :: NewPos(g, d, x)
  }

  /** Something is left at every node above a leaf that stays. */
  lemma {:induction false} TouchedRemains(g: Layout, f: Forest, d: set<nat>, s: set<nat>, p: nat)
    requires Deletable(g, f, d) && Stay(g, f, d, s) && Touched(g, s, p)
    ensures Present(g, f, p) && !Remains(g, f, d, p).Nil?
    decreases p
  {
    TouchedAt(g, f, s, p);
    if p !in s {
      g.ChildFacts(p);
      RemainsNode(g, f, d, p);
      if Touched(g, s, g.Left(p)) {
        TouchedRemains(g, f, d, s, g.Left(p));
      } else {
        TouchedRemains(g, f, d, s, g.Right(p));
      }
    }
  }

  lemma {:induction false} StayKept(g: Layout, f: Forest, d: set<nat>, s: set<nat>, x: nat)
    requires Deletable(g, f, d) && Stay(g, f, d, s) && x in s
    ensures Kept(g, f, d, x) && Remains(g, f, d, x) == At(g, f, x)
  {
    if x in g.nodes && !g.IsRoot(x) {
      g.NonRootFacts(x);
    }
  }

  /** The leaves that stay are leaves at their new positions. */
  lemma {:induction false} StayMoved(g: Layout, f: Forest, d: set<nat>, s: set<nat>)
    requires Deletable(g, f, d) && Stay(g, f, d, s)
    ensures forall x :: x in s ==> At(g, Deleted(g, f, d), NewPos(g, d, x)) == At(g, f, x)
    ensures forall y :: y in Moved(g, d, s) ==> At(g, Deleted(g, f, d), y).Leaf?
  {
    forall x | x in s
      ensures At(g, Deleted(g, f, d), NewPos(g, d, x)) == At(g, f, x)
    {
      StayKept(g, f, d, s, x);
      MovedTo(g, f, d, x);
    }
  }

  /** A node with something left has a remembered leaf below it exactly when its new
      position has. */
  lemma {:induction false} TouchedMoved(g: Layout, f: Forest, d: set<nat>, s: set<nat>, p: nat)
    requires Deletable(g, f, d) && Stay(g, f, d, s)
    requires Present(g, f, p) && !Remains(g, f, d, p).Nil?
    ensures Touched(g, s, p) <==> Touched(g, Moved(g, d, s), NewPos(g, d, p))
    decreases p
  {
    hide At, Gone, Rem, NewPos, Deleted, SolidExcept;
    if At(g, f, p).Node? {
      TouchedMovedNode(g, f, d, s, p);
    } else {
      LeafMoved(g, f, d, s, p);
    }
  }

  lemma {:induction false} TouchedMovedNode(g: Layout, f: Forest, d: set<nat>, s: set<nat>, p: nat)
    requires Deletable(g, f, d) && Stay(g, f, d, s)
    requires Present(g, f, p) && !Remains(g, f, d, p).Nil? && At(g, f, p).Node?
    ensures Touched(g, s, p) <==> Touched(g, Moved(g, d, s), NewPos(g, d, p))
    decreases p, 0
  {
    hide At, Gone, Rem, NewPos, Deleted, SolidExcept;
    RemainsNode(g, f, d, p);
    var l, r, q := g.Left(p), g.Right(p), NewPos(g, d, p);
    g.ChildFacts(p);
    NewPosChild(g, f, d, p);
    if Remains(g, f, d, l).Nil? {
      assert !Touched(g, s, l) by { if Touched(g, s, l) { TouchedRemains(g, f, d, s, l); } }
      TouchedMoved(g, f, d, s, r);
      assert Touched(g, s, p) <==> Touched(g, s, r);
    } else if Remains(g, f, d, r).Nil? {
      assert !Touched(g, s, r) by { if Touched(g, s, r) { TouchedRemains(g, f, d, s, r); } }
      TouchedMoved(g, f, d, s, l);
      assert Touched(g, s, p) <==> Touched(g, s, l);
    } else {
      TouchedMoved(g, f, d, s, l);
      TouchedMoved(g, f, d, s, r);
      InnerMoved(g, f, d, s, p);
      g.ChildFacts(q);
    }
  }

  /** The new position of an inner node is not the new position of a leaf. */
  lemma {:induction false} InnerMoved(g: Layout, f: Forest, d: set<nat>, s: set<nat>, p: nat)
    requires Deletable(g, f, d) && Stay(g, f, d, s)
    requires Present(g, f, p) && Remains(g, f, d, p).Node?
    ensures NewPos(g, d, p) !in Moved(g, d, s) && p !in s
  {
    hide At, Rem, NewPos, Deleted, SolidExcept;
    StayMoved(g, f, d, s);
    MovedTo(g, f, d, p);
    RemLeaf(g, d, p, At(g, f, p));
  }

  lemma RemLeaf(g: Layout, d: set<nat>, p: nat, t: Tree)
    ensures t.Leaf? ==> Rem(g, d, p, t) == t || Rem(g, d, p, t).Nil?
    ensures t.Nil? ==> Rem(g, d, p, t).Nil?
  {
  }

  lemma {:induction false} LeafMoved(g: Layout, f: Forest, d: set<nat>, s: set<nat>, p: nat)
    requires Deletable(g, f, d) && Stay(g, f, d, s)
    requires Present(g, f, p) && !Remains(g, f, d, p).Nil? && !At(g, f, p).Node?
    ensures Touched(g, s, p) <==> Touched(g, Moved(g, d, s), NewPos(g, d, p))
  {
    hide Gone, Rem, NewPos, Deleted, SolidExcept;
    var s', q := Moved(g, d, s), NewPos(g, d, p);
    StayMoved(g, f, d, s);
    DeletedCompact(g, f, d);
    NewPosUp(g, d, p);
    MovedTo(g, f, d, p);
    RemLeaf(g, d, p, At(g, f, p));
    TouchedAt(g, f, s, p);
    TouchedAt(g, Deleted(g, f, d), s', q);
    if q in s' {
      var x :| x in s && NewPos(g, d, x) == q;
      StayKept(g, f, d, s, x);
      LeavesInjective(g, f, d, x, p);
    }
  }

  /** A node of which both children have something left, in place of `p`. */
  lemma {:induction false} Core(g: Layout, f: Forest, d: set<nat>, p: nat) returns (q: nat)
    requires Deletable(g, f, d) && Present(g, f, p) && Remains(g, f, d, p).Node?
    ensures q in g.nodes && q >= g.m && At(g, f, q).Node? && Present(g, f, q)
    ensures NewPos(g, d, q) == NewPos(g, d, p) && Remains(g, f, d, q) == Remains(g, f, d, p)
    ensures !Remains(g, f, d, g.Left(q)).Nil? && !Remains(g, f, d, g.Right(q)).Nil?
    decreases p
  {
    hide At, Gone, Rem, NewPos, SolidExcept;
    RemLeaf(g, d, p, At(g, f, p));
    RemainsNode(g, f, d, p);
    NewPosChild(g, f, d, p);
    g.ChildFacts(p);
    if Remains(g, f, d, g.Left(p)).Nil? {
      q := Core(g, f, d, g.Right(p));
    } else if Remains(g, f, d, g.Right(p)).Nil? {
      q := Core(g, f, d, g.Left(p));
    } else {
      q := p;
    }
  }

  /** Everything in the forest after a deletion was left at some position before; and
      two siblings were siblings. */
  lemma {:induction false} Preimage(g: Layout, f: Forest, d: set<nat>, x: nat) returns (p: nat)
    requires Deletable(g, f, d) && !At(g, Deleted(g, f, d), x).Nil?
    ensures Present(g, f, p) && NewPos(g, d, p) == x
    ensures Remains(g, f, d, p) == At(g, Deleted(g, f, d), x)
    ensures x in g.nodes && (g.IsRoot(x) <==> g.IsRoot(p))
    ensures !g.IsRoot(p) ==> Present(g, f, Sibling(p)) && !Remains(g, f, d, Sibling(p)).Nil? &&
                             NewPos(g, d, Sibling(p)) == Sibling(x)
    decreases 2 * g.m - x
  {
    DeletedCompact(g, f, d);
    if g.IsRoot(x) {
      p := x;
    } else {
      g.NonRootFacts(x);
      p := PreimageBelow(g, f, d, x);
    }
  }

  lemma {:induction false} PreimageBelow(g: Layout, f: Forest, d: set<nat>, x: nat) returns (p: nat)
    requires Deletable(g, f, d) && x in g.nodes && !g.IsRoot(x) && !At(g, Deleted(g, f, d), x).Nil?
    ensures Present(g, f, p) && NewPos(g, d, p) == x && !g.IsRoot(p)
    ensures Remains(g, f, d, p) == At(g, Deleted(g, f, d), x)
    ensures Present(g, f, Sibling(p)) && !Remains(g, f, d, Sibling(p)).Nil? && NewPos(g, d, Sibling(p)) == Sibling(x)
    decreases 2 * g.m - x, 0
  {
    var f' := Deleted(g, f, d);
    DeletedCompact(g, f, d);
    g.NonRootFacts(x);
    assert At(g, f', g.Up(x)).Node?;
    hide At, Gone, Rem, NewPos, Deleted, SolidExcept;
    AtUp(g, f', x);
    var q := Preimage(g, f, d, g.Up(x));
    q := Core(g, f, d, q);
    RemainsNode(g, f, d, q);
    g.ChildFacts(q);
    NewPosChild(g, f, d, q);
    p := if x % 2 == 0 then g.Left(q) else g.Right(q);
  }

  /** A position is needed after the deletion exactly when it is where something left
      at a position needed before has moved to. */
  lemma {:induction false} ProofPosMoved(g: Layout, f: Forest, d: set<nat>, s: set<nat>, q: nat)
    requires Deletable(g, f, d) && Stay(g, f, d, s)
    requires IsProofPos(g, s, q) && !Remains(g, f, d, q).Nil?
    ensures IsProofPos(g, Moved(g, d, s), NewPos(g, d, q))
    ensures At(g, Deleted(g, f, d), NewPos(g, d, q)) == Remains(g, f, d, q)
  {
    hide At, Gone, Rem, NewPos, Deleted, SolidExcept, Touched;
    var p := Sibling(q);
    g.NonRootFacts(q);
    TouchedRemains(g, f, d, s, p);
    AtUp(g, f, p);
    TouchedMoved(g, f, d, s, p);
    TouchedMoved(g, f, d, s, q);
    MovedTo(g, f, d, q);
    NewPosChild(g, f, d, g.Up(p));
    g.ChildFacts(NewPos(g, d, g.Up(p)));
  }

  lemma {:induction false} ProofPosOrigin(g: Layout, f: Forest, d: set<nat>, s: set<nat>, x: nat) returns (q: nat)
    requires Deletable(g, f, d) && Stay(g, f, d, s)
    requires IsProofPos(g, Moved(g, d, s), x)
    ensures IsProofPos(g, s, q) && !Remains(g, f, d, q).Nil? && NewPos(g, d, q) == x
  {
    hide At, Gone, Rem, NewPos, Deleted, SolidExcept, Touched;
    var f', s' := Deleted(g, f, d), Moved(g, d, s);
    DeletedCompact(g, f, d);
    StayMoved(g, f, d, s);
    g.NonRootFacts(x);
    TouchedAt(g, f', s', Sibling(x));
    AtUp(g, f', Sibling(x));
    CompactNode(g, f', g.Up(x));
    q := Preimage(g, f, d, x);
    TouchedMoved(g, f, d, s, q);
    TouchedMoved(g, f, d, s, Sibling(q));
  }

  /** Without hashes for the targets, the calculation finds the hash of what is left. */
  lemma {:induction false} CalcDeleted(g: Layout, f: Forest, t: map<nat, Hash>, given: map<nat, Hash>, p: nat)
    requires Compact(g, f) && Deletable(g, f, t.Keys)
    requires forall x :: x in t ==> At(g, f, x).Leaf? && t[x] == Empty
    requires ProofOf(g, f, t.Keys, given)
    requires Touched(g, t.Keys, p) || IsProofPos(g, t.Keys, p)
    ensures Calc(g, t, given, p) == Merkle(Remains(g, f, t.Keys, p))
    decreases p
  {
    if p in t {
    } else if TouchedBelow(g, t.Keys, p) {
      hide At, Touched, SolidExcept, Merkle, Combine, Rem;
      ChildKnown(g, t.Keys, p);
      TouchedAt(g, f, t.Keys, p);
      RemainsNode(g, f, t.Keys, p);
      AtFits(g, f, g.Left(p));
      AtFits(g, f, g.Right(p));
      RemOk(g, t.Keys, g.Left(p), At(g, f, g.Left(p)));
      RemOk(g, t.Keys, g.Right(p), At(g, f, g.Right(p)));
      MerkleJoin(Remains(g, f, t.Keys, g.Left(p)), Remains(g, f, t.Keys, g.Right(p)));
      CalcDeleted(g, f, t, given, g.Left(p));
      CalcDeleted(g, f, t, given, g.Right(p));
    } else {
      RemUntouched(g, f, t.Keys, p);
    }
  }

  /** Nothing changes below a node that is not touched. */
  lemma {:induction false} RemUntouched(g: Layout, f: Forest, d: set<nat>, p: nat)
    requires Compact(g, f) && Deletable(g, f, d) && p in g.nodes && !Touched(g, d, p)
    ensures Remains(g, f, d, p) == At(g, f, p)
    decreases p
  {
    if At(g, f, p).Node? {
      RemainsNode(g, f, d, p);
      CompactNode(g, f, p);
      g.ChildFacts(p);
      RemUntouched(g, f, d, g.Left(p));
      RemUntouched(g, f, d, g.Right(p));
    }
  }
}
