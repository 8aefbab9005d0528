/** What a calculated hash commits to. */
module Terms {
  // Beside its hash a term has the hash that is calculated when the targets are deleted, and the hashes claimed for
  // targets that went into it.  What a term says about a tree with its hash follows from how it was put
  // together, whatever the positions were.

  import opened Hashes
  import opened Options
  import opened Positions
  import opened Layouts
  import opened Forests
  import opened Deletion
  import opened Slots
  import opened Uniqueness
  import opened Passes

  datatype Term = Term(hash: Hash, left: Hash, claimed: set<Hash>)

  /** A target with its hash. */
  function Target(h: Hash): Term {
    Term(h, Empty, if h == Empty then {} else {h})
  }

  /** A hash of the proof. */
  function Given(h: Hash): Term {
    Term(h, h, {})
  }

  function NextTerm(pos: nat, a: Term, b: Term): Term {
    Term(NextHash(pos, a.hash, b.hash), NextHash(pos, a.left, b.left), a.claimed + b.claimed)
  }

  /** A tree the hashes determine. */
  ghost predicate GoodTree(t: Tree) {
    LeafHashes(t) && DistinctTree(t) && Solid(t)
  }

  /** The hashes of all subtrees. */
  ghost function SubHashes(t: Tree): set<Hash> {
    {Merkle(t)} + if t.Node? then SubHashes(t.left) + SubHashes(t.right) else {}
  }

  /** The leaves below subtrees with one of the hashes. */
  ghost function Covered(t: Tree, k: set<Hash>): set<Hash> {
    if Merkle(t) in k then LeafSet(t)
    else if t.Node? then Covered(t.left, k) + Covered(t.right, k)
    else {}
  }

  /** The hashes are those of subtrees, of which none is inside another. */
  ghost predicate Cuts(t: Tree, k: set<Hash>) {
    if Merkle(t) in k then k == {Merkle(t)}
    else if t.Node? then
      var l, r := k * SubHashes(t.left), k * SubHashes(t.right);
      k == l + r && Cuts(t.left, l) && Cuts(t.right, r)
    else k == {}
  }

  /** A tree with the hash of a term has the claimed hashes in it, and without what is below them has the hash the term
      leaves. */
  ghost predicate Bounded(x: Term) {
    Empty !in x.claimed &&
    forall t: Tree {:trigger GoodTree(t)} :: GoodTree(t) && Merkle(t) == x.hash ==>
      Cuts(t, x.claimed) && x.left == Merkle(RemoveHashes(t, Covered(t, x.claimed)))
  }

  lemma {:induction false} CoveredLeaves(t: Tree, k: set<Hash>)
    ensures Covered(t, k) <= LeafSet(t)
    decreases t
  {
    if t.Node? {
      CoveredLeaves(t.left, k);
      CoveredLeaves(t.right, k);
    }
  }

  /** Only the hashes of its subtrees matter for a tree. */
  lemma {:induction false} CoveredSame(t: Tree, k: set<Hash>, l: set<Hash>)
    requires k * SubHashes(t) == l * SubHashes(t)
    ensures Covered(t, k) == Covered(t, l)
    decreases t
  {
    assert Merkle(t) in SubHashes(t);
    assert Merkle(t) in k * SubHashes(t) <==> Merkle(t) in k;
    assert Merkle(t) in l * SubHashes(t) <==> Merkle(t) in l;
    if t.Node? {
      SubsetSame(k, l, SubHashes(t), SubHashes(t.left));
      SubsetSame(k, l, SubHashes(t), SubHashes(t.right));
      CoveredSame(t.left, k, l);
      CoveredSame(t.right, k, l);
    }
  }

  lemma SubsetSame(k: set<Hash>, l: set<Hash>, a: set<Hash>, b: set<Hash>)
    requires k * a == l * a && b <= a
    ensures k * b == l * b
  {
    forall h
      ensures h in k * b <==> h in l * b
    {
      if h in b { assert h in k * a <==> h in k; assert h in l * a <==> h in l; }
    }
  }

  lemma {:induction false} CutsWithin(t: Tree, k: set<Hash>)
    requires Cuts(t, k)
    ensures k <= SubHashes(t)
  {
  }

  lemma GoodParts(t: Tree)
    requires GoodTree(t) && t.Node?
    ensures GoodTree(t.left) && GoodTree(t.right) && LeafSet(t.left) !! LeafSet(t.right) && !t.left.Nil? &&
            !t.right.Nil?
  {
    hide IsLeafHash;
  }

  /** A subtree hash belongs to a subtree, whose leaves are in the tree. */
  lemma {:induction false} SubTreeOf(t: Tree, h: Hash) returns (s: Tree)
    requires GoodTree(t) && h in SubHashes(t)
    ensures GoodTree(s) && Merkle(s) == h && LeafSet(s) <= LeafSet(t) && Size(s) <= Size(t) && (s.Nil? ==> t.Nil?)
    decreases t
  {
    hide GoodTree, IsLeafHash;
    if h == Merkle(t) {
      s := t;
    } else {
      GoodParts(t);
      s := SubTreeOf(if h in SubHashes(t.left) then t.left else t.right, h);
    }
  }

  ghost function Size(t: Tree): nat {
    if t.Node? then 1 + Size(t.left) + Size(t.right) else 0
  }

  /** Two trees with a subtree hash in common have a leaf in common. */
  lemma {:induction false} SharedLeaf(t: Tree, u: Tree, h: Hash) returns (x: Hash)
    requires CollisionFree() && GoodTree(t) && GoodTree(u) && h != Empty && h in SubHashes(t) && h in SubHashes(u)
    ensures x in LeafSet(t) && x in LeafSet(u)
  {
    hide CollisionFree, IsLeafHash;
    var a := SubTreeOf(t, h);
    var b := SubTreeOf(u, h);
    MerkleInjective(a, b);
    LeafSetEmpty(a);
    assert !a.Nil? by { MerkleNilEmpty(Nil); }
    x :| x in LeafSet(a);
  }

  lemma MerkleNilEmpty(t: Tree)
    requires t.Nil?
    ensures Merkle(t) == Empty
  {
  }

  /** The hash of a tree is not that of a part of it. */
  lemma {:induction false} PartHash(t: Tree, h: Hash)
    requires CollisionFree() && GoodTree(t) && t.Node? && (h in SubHashes(t.left) || h in SubHashes(t.right))
    ensures h != Merkle(t)
  {
    hide CollisionFree, GoodTree;
    GoodParts(t);
    var s := SubTreeOf(if h in SubHashes(t.left) then t.left else t.right, h);
    GoodHashes(t);
    GoodHashes(s);
    if h == Merkle(t) { MerkleInjective(s, t); }
  }

  lemma GoodHashes(t: Tree)
    requires GoodTree(t)
    ensures LeafHashes(t) && DistinctTree(t) && Solid(t)
  {
  }

  /** Claims of the two sides together. */
  lemma {:induction false} CutsBoth(t: Tree, l: set<Hash>, r: set<Hash>)
    requires CollisionFree() && GoodTree(t) && t.Node? && Cuts(t.left, l) && Cuts(t.right, r) && Empty !in l + r
    ensures Cuts(t, l + r) && Merkle(t) !in l + r
    ensures Covered(t, l + r) == Covered(t.left, l) + Covered(t.right, r)
  {
    hide CollisionFree, GoodTree, Merkle;
    GoodParts(t);
    CutsWithin(t.left, l);
    CutsWithin(t.right, r);
    var k := l + r;
    forall h | h in k
      ensures h != Merkle(t)
      ensures h in l <==> h in SubHashes(t.left)
      ensures h in r <==> h in SubHashes(t.right)
    {
      PartHash(t, h);
      if h in SubHashes(t.left) && h in SubHashes(t.right) { var x := SharedLeaf(t.left, t.right, h); }
    }
    assert k * SubHashes(t.left) == l && k * SubHashes(t.right) == r;
    assert l * SubHashes(t.left) == l && r * SubHashes(t.right) == r;
    CoveredSame(t.left, k, l);
    CoveredSame(t.right, k, r);
  }

  /** Only the hashes that occur in a tree matter for removing hashes from it. */
  lemma {:induction false} RemoveSame(t: Tree, k: set<Hash>, l: set<Hash>)
    requires forall h :: h in LeafSet(t) ==> (h in k <==> h in l)
    ensures RemoveHashes(t, k) == RemoveHashes(t, l)
    decreases t
  {
    if t.Node? {
      RemoveSame(t.left, k, l);
      RemoveSame(t.right, k, l);
    }
  }

  lemma {:induction false} RemoveNone(t: Tree, k: set<Hash>)
    requires Solid(t) && forall h :: h in LeafSet(t) ==> h !in k
    ensures RemoveHashes(t, k) == t
    decreases t
  {
    if t.Node? {
      RemoveNone(t.left, k);
      RemoveNone(t.right, k);
    }
  }

  lemma {:induction false} RemoveOk(t: Tree, k: set<Hash>)
    requires LeafHashes(t)
    ensures LeavesOk(RemoveHashes(t, k)) && LeavesOk(t)
    decreases t
  {
    hide IsLeafHash;
    if t.Node? {
      RemoveOk(t.left, k);
      RemoveOk(t.right, k);
    }
    if t.Leaf? { LeafNotEmpty(t.hash); }
  }

  /** A tree whose hash is that of two hashes together has two subtrees with these hashes. */
  lemma {:induction false} SplitTree(t: Tree, l: Hash, r: Hash)
    requires CollisionFree() && LeafHashes(t) && Merkle(t) == ParentHash(l, r)
    ensures t.Node? && Merkle(t.left) == l && Merkle(t.right) == r
  {
  }

  /** A target is bounded. */
  lemma {:induction false} TargetBounded(h: Hash)
    requires CollisionFree()
    ensures Bounded(Target(h))
  {
    hide CollisionFree, IsLeafHash;
    var x := Target(h);
    forall t: Tree | GoodTree(t) && Merkle(t) == x.hash
      ensures Cuts(t, x.claimed) && x.left == Merkle(RemoveHashes(t, Covered(t, x.claimed)))
    {
      GoodOk(t);
      MerkleEmpty(t);
      RemoveAll(t, LeafSet(t));
    }
  }

  lemma {:induction false} GoodOk(t: Tree)
    requires GoodTree(t)
    ensures LeavesOk(t)
  {
    hide IsLeafHash;
    RemoveOk(t, {});
  }

  lemma {:induction false} RemoveAll(t: Tree, k: set<Hash>)
    requires LeafSet(t) <= k
    ensures RemoveHashes(t, k) == Nil
    decreases t
  {
    if t.Node? {
      RemoveAll(t.left, k);
      RemoveAll(t.right, k);
    }
  }

  lemma {:induction false} CoveredNone(t: Tree)
    ensures Covered(t, {}) == {} && Cuts(t, {})
    decreases t
  {
    if t.Node? {
      CoveredNone(t.left);
      CoveredNone(t.right);
      assert {} * SubHashes(t.left) == {} && {} * SubHashes(t.right) == {};
    }
  }

  lemma {:induction false} GivenBounded(h: Hash)
    ensures Bounded(Given(h))
  {
    hide IsLeafHash;
    var x := Given(h);
    forall t: Tree | GoodTree(t) && Merkle(t) == x.hash
      ensures Cuts(t, x.claimed) && x.left == Merkle(RemoveHashes(t, Covered(t, x.claimed)))
    {
      CoveredNone(t);
      RemoveNone(t, {});
    }
  }

  lemma BoundedAt(x: Term, t: Tree)
    requires Bounded(x) && GoodTree(t) && Merkle(t) == x.hash
    ensures Cuts(t, x.claimed) && x.left == Merkle(RemoveHashes(t, Covered(t, x.claimed))) && Empty !in x.claimed
  {
    hide GoodTree, Cuts, Covered, RemoveHashes, Merkle;
  }

  /** A term without a hash claims nothing and leaves nothing. */
  lemma {:induction false} EmptyTerm(x: Term)
    requires Bounded(x) && x.hash == Empty
    ensures x.left == Empty && x.claimed == {}
  {
    hide Bounded;
    assert GoodTree(Nil) && Merkle(Nil) == Empty;
    BoundedAt(x, Nil);
    assert RemoveHashes(Nil, Covered(Nil, x.claimed)) == Nil;
  }

  /** What two terms say together. */
  lemma {:induction false} NextBounded(pos: nat, a: Term, b: Term)
    requires CollisionFree() && Bounded(a) && Bounded(b)
    ensures Bounded(NextTerm(pos, a, b))
  {
    hide CollisionFree, GoodTree, Cuts, Covered, RemoveHashes, Merkle, Bounded;
    if a.hash == Empty {
      EmptyTerm(a);
      assert NextTerm(pos, a, b) == b;
    } else if b.hash == Empty {
      EmptyTerm(b);
      assert NextTerm(pos, a, b) == a;
    } else {
      var l, r := if pos % 2 == 0 then a else b, if pos % 2 == 0 then b else a;
      JoinBounded(l, r);
      assert a.claimed + b.claimed == l.claimed + r.claimed;
      assert NextTerm(pos, a, b) == Term(ParentHash(l.hash, r.hash), Combine(l.left, r.left), l.claimed + r.claimed);
    }
  }

  lemma {:induction false} JoinBounded(l: Term, r: Term)
    requires CollisionFree() && Bounded(l) && Bounded(r)
    ensures Bounded(Term(ParentHash(l.hash, r.hash), Combine(l.left, r.left), l.claimed + r.claimed))
  {
    hide CollisionFree, GoodTree, Cuts, Covered, RemoveHashes, Merkle, ParentHash, Combine;
    var x := Term(ParentHash(l.hash, r.hash), Combine(l.left, r.left), l.claimed + r.claimed);
    forall t: Tree | GoodTree(t) && Merkle(t) == x.hash
      ensures Cuts(t, x.claimed) && x.left == Merkle(RemoveHashes(t, Covered(t, x.claimed)))
    {
      JoinAt(l, r, t);
    }
  }

  lemma {:induction false} JoinAt(l: Term, r: Term, t: Tree)
    requires CollisionFree() && Bounded(l) && Bounded(r) && GoodTree(t) && Merkle(t) == ParentHash(l.hash, r.hash)
    ensures Cuts(t, l.claimed + r.claimed)
    ensures Combine(l.left, r.left) == Merkle(RemoveHashes(t, Covered(t, l.claimed + r.claimed)))
  {
    hide CollisionFree, GoodTree, Cuts, Covered, Merkle, ParentHash, Bounded, Combine;
    GoodHashes(t);
    SplitTree(t, l.hash, r.hash);
    GoodParts(t);
    BoundedAt(l, t.left);
    BoundedAt(r, t.right);
    CutsBoth(t, l.claimed, r.claimed);
    var all, cl, cr := Covered(t, l.claimed + r.claimed), Covered(t.left, l.claimed), Covered(t.right, r.claimed);
    CoveredLeaves(t.left, l.claimed);
    CoveredLeaves(t.right, r.claimed);
    RemoveSame(t.left, all, cl);
    RemoveSame(t.right, all, cr);
    GoodHashes(t.left);
    GoodHashes(t.right);
    RemoveOk(t.left, all);
    RemoveOk(t.right, all);
    MerkleJoin(RemoveHashes(t.left, all), RemoveHashes(t.right, all));
  }

  ghost predicate AllBounded(s: seq<Item<Term>>) {
    forall i :: 0 <= i < |s| ==> Bounded(s[i].value)
  }

  /** The claims of a list of items. */
  ghost predicate ClaimedBy(s: seq<Item<Term>>, h: Hash) {
    exists i :: 0 <= i < |s| && h in s[i].value.claimed
  }

  ghost predicate ClaimedIn(s: seq<Term>, h: Hash) {
    exists i :: 0 <= i < |s| && h in s[i].claimed
  }

  lemma {:induction false} TakenBounded(a: seq<Item<Term>>, b: seq<Item<Term>>)
    requires |a| + |b| > 0 && AllBounded(a) && AllBounded(b)
    ensures var t := Take(a, b);
            Bounded(t.first.value) && (t.sibling.Some? ==> Bounded(t.sibling.value.value)) && AllBounded(t.a) &&
                AllBounded(t.b)
  {
    hide Bounded;
  }

  /** What is claimed by what is taken, and by what is left. */
  lemma {:induction false} TakenClaims(a: seq<Item<Term>>, b: seq<Item<Term>>, h: Hash)
    requires |a| + |b| > 0
    ensures var t := Take(a, b);
            ClaimedBy(a, h) || ClaimedBy(b, h) <==>
            h in t.first.value.claimed || (t.sibling.Some? && h in t.sibling.value.value.claimed) ||
                ClaimedBy(t.a, h) || ClaimedBy(t.b, h)
  {
    hide ClaimedBy;
    if |a| > 0 { ClaimsFirst(a, h); }
    if |b| > 0 { ClaimsFirst(b, h); }
    if |a| > 1 { ClaimsFirst(a[1..], h); }
    if |b| > 1 { ClaimsFirst(b[1..], h); }
  }

  lemma {:induction false} ClaimsFirst(s: seq<Item<Term>>, h: Hash)
    requires |s| > 0
    ensures ClaimedBy(s, h) <==> h in s[0].value.claimed || ClaimedBy(s[1..], h)
  {
    var rest := s[1..];
    if ClaimedBy(rest, h) {
      var i :| 0 <= i < |rest| && h in rest[i].value.claimed;
      assert h in s[i + 1].value.claimed;
    }
    if ClaimedBy(s, h) {
      var i :| 0 <= i < |s| && h in s[i].value.claimed;
      if i > 0 { assert h in rest[i - 1].value.claimed; }
    }
  }

  lemma {:induction false} ClaimsLast(s: seq<Item<Term>>, x: Item<Term>, h: Hash)
    ensures ClaimedBy(s + [x], h) <==> ClaimedBy(s, h) || h in x.value.claimed
  {
    var more := s + [x];
    if ClaimedBy(s, h) {
      var i :| 0 <= i < |s| && h in s[i].value.claimed;
      assert h in more[i].value.claimed;
    }
    assert more[|s|] == x;
  }

  lemma {:induction false} ClaimsCons(x: Term, s: seq<Term>, h: Hash)
    ensures ClaimedIn([x] + s, h) <==> h in x.claimed || ClaimedIn(s, h)
  {
    var more := [x] + s;
    assert more[0] == x;
    if ClaimedIn(s, h) {
      var i :| 0 <= i < |s| && h in s[i].claimed;
      assert h in more[i + 1].claimed;
    }
    if ClaimedIn(more, h) {
      var i :| 0 <= i < |more| && h in more[i].claimed;
      if i > 0 { assert h in s[i - 1].claimed; }
    }
  }

  /** Hashes of a proof claim nothing. */
  ghost predicate AllGiven(proof: seq<Term>) {
    forall i :: 0 <= i < |proof| ==> Bounded(proof[i]) && proof[i].claimed == {}
  }

  /** The terms at the roots are bounded, and together they claim what was claimed for the targets. */
  lemma {:induction false} RootTerms(g: Layout, a: seq<Item<Term>>, b: seq<Item<Term>>, proof: seq<Term>, h: Hash)
    requires CollisionFree() && g.WellShaped() && InNodes(g, a) && InNodes(g, b) && AllBounded(a) && AllBounded(b) &&
             AllGiven(proof)
    ensures var r := Pass(g, a, b, proof, NextTerm);
            r.Some? ==> && (forall i :: 0 <= i < |r.value| ==> Bounded(r.value[i]))
                        && (ClaimedIn(r.value, h) <==> ClaimedBy(a, h) || ClaimedBy(b, h))
    decreases Weight(g, a) + Weight(g, b)
  {
    hide CollisionFree, Layout.WellShaped, Layout.IsRoot, Pass, Take, Weight, Bounded, ClaimedBy, ClaimedIn;
    if |a| + |b| == 0 {
      RunEnd(g, a, b, proof, NextTerm);
      NoClaims(a, b, h);
    } else {
      RunStep(g, a, b, proof, NextTerm);
      TakenBounded(a, b);
      TakenClaims(a, b, h);
      var t := Take(a, b);
      if g.IsRoot(t.first.pos) {
        RootTerms(g, t.a, t.b, proof, h);
        var rest := Pass(g, t.a, t.b, proof, NextTerm);
        if rest.Some? { ClaimsCons(t.first.value, rest.value, h); }
      } else if t.sibling.Some? || |proof| > 0 {
        var y := if t.sibling.Some? then t.sibling.value.value else proof[0];
        var x := Item(g.Up(t.first.pos), NextTerm(t.first.pos, t.first.value, y));
        NextBounded(t.first.pos, t.first.value, y);
        ClaimsLast(t.b, x, h);
        RootTerms(g, t.a, t.b + [x], if t.sibling.Some? then proof else proof[1..], h);
      }
    }
  }

  lemma NoClaims(a: seq<Item<Term>>, b: seq<Item<Term>>, h: Hash)
    requires |a| + |b| == 0
    ensures !ClaimedBy(a, h) && !ClaimedBy(b, h) && !ClaimedIn([], h)
  {
  }
}
