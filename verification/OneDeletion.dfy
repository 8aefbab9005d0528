/** Deletions one after another. */
module OneDeletion {
  import opened Positions
  import opened Layouts
  import opened Entries
  import opened Shape
  import opened Forests
  import opened Honest
  import opened Deletion
  import opened Sequential
  import opened DeTwin
  import opened Relocation
  import opened Uniqueness
  import opened Additions
  import opened Navigation

  /** The tree at `p` without what is at `d` below it: the sibling of `d` takes the place of
      their parent. */
  function DeleteAt(rows: nat, p: nat, t: Tree, d: nat): Tree
    requires Valid(rows, p) && Valid(rows, d)
    decreases t
  {
    if t.Node? && p >= Pow2(rows) then
      var l, r := LeftChild(rows, p), RightChild(rows, p);
      if d == l then t.right
      else if d == r then t.left
      else if IsAncestor(l, d, rows) then Node(DeleteAt(rows, l, t.left, d), t.right)
      else if IsAncestor(r, d, rows) then Node(t.left, DeleteAt(rows, r, t.right, d))
      else t
    else t
  }

  /** The tree at `p` with `x` put back at `d` below it. */
  function InsertAt(rows: nat, p: nat, t: Tree, d: nat, x: Tree): Tree
    requires Valid(rows, p) && Valid(rows, d)
    decreases t
  {
    if p >= Pow2(rows) then
      var l, r := LeftChild(rows, p), RightChild(rows, p);
      if d == l then Node(x, t)
      else if d == r then Node(t, x)
      else if t.Node? && IsAncestor(l, d, rows) then Node(InsertAt(rows, l, t.left, d, x), t.right)
      else if t.Node? && IsAncestor(r, d, rows) then Node(t.left, InsertAt(rows, r, t.right, d, x))
      else t
    else t
  }

  /** What is below a node is one of its children, or below one of them, and not the other. */
  lemma {:induction false} WhichChild(g: Layout, rows: nat, p: nat, d: nat)
    requires g.m == Pow2(rows) && g.WellShaped() && p in g.nodes && d in g.nodes && Above(g, p, d)
    ensures p >= g.m && Valid(rows, p) && Valid(rows, d) && d < p
    ensures var l, r := g.Left(p), g.Right(p);
            && l in g.nodes && r in g.nodes && Valid(rows, l) && Valid(rows, r) && l < p && r < p
            && (IsAncestor(l, d, rows) <==> Above(g, l, d)) && (IsAncestor(r, d, rows) <==> Above(g, r, d))
            && (AtOrAbove(g, l, d) || AtOrAbove(g, r, d)) && !(AtOrAbove(g, l, d) && AtOrAbove(g, r, d))
  {
    hide IsAncestor, Above, Layout.WellShaped;
    AboveBounds(g, p, d);
    BelowChild(g, p, d);
    g.ChildFacts(p);
    g.NodeBound(p);
    g.NodeBound(d);
    AncestorAbove(g, rows, g.Left(p), d);
    AncestorAbove(g, rows, g.Right(p), d);
    SiblingsApart(g, p);
    if AtOrAbove(g, g.Left(p), d) && AtOrAbove(g, g.Right(p), d) {
      Chain(g, g.Left(p), g.Right(p), d);
    }
  }

  lemma {:induction false} NotBelow(g: Layout, p: nat, d: nat, t: Tree)
    requires g.WellShaped() && p in g.nodes && FitsBelow(g, p, t) && Solid(t) && !AtOrAbove(g, p, d)
    ensures Rem(g, {d}, p, t) == t
  {
    hide Above, Rem;
    RemApart(g, {d}, p, t);
  }

  /** Deleting one position leaves the others in place; and something is left. */
  lemma {:induction false} DeleteAtRem(g: Layout, rows: nat, p: nat, t: Tree, d: nat)
    requires g.m == Pow2(rows) && g.WellShaped() && p in g.nodes && d in g.nodes && Above(g, p, d)
    requires FitsBelow(g, p, t) && Solid(t)
    ensures Valid(rows, p) && Valid(rows, d)
    ensures DeleteAt(rows, p, t, d) == Rem(g, {d}, p, t)
    ensures Solid(DeleteAt(rows, p, t, d)) && (DeleteAt(rows, p, t, d).Nil? <==> t.Nil?)
    decreases t
  {
    hide IsAncestor, Above, Layout.WellShaped;
    WhichChild(g, rows, p, d);
    if t.Node? {
      var l, r := g.Left(p), g.Right(p);
      if AtOrAbove(g, l, d) {
        NotBelow(g, r, d, t.right);
        if d != l { DeleteAtRem(g, rows, l, t.left, d); }
      } else {
        NotBelow(g, l, d, t.left);
        if d != r { DeleteAtRem(g, rows, r, t.right, d); }
      }
    }
  }

  /** What was deleted can be put back. */
  lemma {:induction false} InsertDeleted(g: Layout, f: Forest, rows: nat, p: nat, d: nat)
    requires g.m == Pow2(rows) && ForestOk(g, f) && p in g.nodes && d in g.nodes && Above(g, p, d)
    requires Solid(At(g, f, p)) && !At(g, f, d).Nil?
    ensures Valid(rows, p) && Valid(rows, d)
    ensures InsertAt(rows, p, DeleteAt(rows, p, At(g, f, p), d), d, At(g, f, d)) == At(g, f, p)
    decreases p
  {
    hide IsAncestor, Above, Layout.WellShaped, At, ForestOk;
    OkShape(g, f);
    WhichChild(g, rows, p, d);
    NodeAbove(g, f, d, p);
    AtChildren(g, f, p);
    var l, r := g.Left(p), g.Right(p);
    if d != l && d != r {
      if Above(g, l, d) {
        InsertDeleted(g, f, rows, l, d);
        NodeAbove(g, f, d, l);
      } else {
        InsertDeleted(g, f, rows, r, d);
        NodeAbove(g, f, d, r);
      }
    }
  }

  lemma OkShape(g: Layout, f: Forest)
    requires ForestOk(g, f)
    ensures g.WellShaped()
  {
  }

  /** Below the sibling of `d` all positions are before `d`. */
  lemma {:induction false} BelowSibling(g: Layout, d: nat, e: nat)
    requires g.WellShaped() && d in g.nodes && !g.IsRoot(d) && Above(g, Sibling(d), e)
    ensures e < d
  {
    hide Layout.WellShaped;
    g.NonRootFacts(d);
    AboveParent(g, Sibling(d), e);
    if d % 2 == 1 { assert Sibling(d) < d; AboveBounds(g, Sibling(d), e); }
  }

  /** Later deletions: after `d`, not its twin, and not above it. */
  ghost predicate LaterThan(g: Layout, d: nat, rest: set<nat>) {
    g.WellShaped() && d in g.nodes &&
    forall e :: e in rest ==> e in g.nodes && e > d && e != Sibling(d) && !Above(g, e, d) && !Above(g, d, e)
  }

  lemma {:induction false} RemIgnores(g: Layout, d: nat, rest: set<nat>, p: nat, t: Tree)
    requires g.WellShaped() && p in g.nodes && FitsBelow(g, p, t) && !AtOrAbove(g, p, d)
    ensures Rem(g, rest + {d}, p, t) == Rem(g, rest, p, t)
    decreases t
  {
    if t.Node? {
      g.ChildFacts(p);
      if AtOrAbove(g, g.Left(p), d) { AboveOf(g, p, g.Left(p), d); }
      if AtOrAbove(g, g.Right(p), d) { AboveOf(g, p, g.Right(p), d); }
      RemIgnores(g, d, rest, g.Left(p), t.left);
      RemIgnores(g, d, rest, g.Right(p), t.right);
    }
  }

  /** None of the later deletions is at or below the parent of `d`, unless at it. */
  lemma {:induction false} NoneAtParent(g: Layout, d: nat, rest: set<nat>, e: nat)
    requires LaterThan(g, d, rest) && !g.IsRoot(d) && e in rest
    ensures e != g.Up(d) && !Above(g, g.Up(d), e)
  {
    hide Above, Layout.WellShaped;
    g.NonRootFacts(d);
    UpAbove(g, d);
    if Above(g, g.Up(d), e) {
      BelowChild(g, g.Up(d), e);
      if Above(g, Sibling(d), e) { BelowSibling(g, d, e); }
    }
  }

  /** First one deletion, then the later ones: the same as all at once. */
  lemma {:induction false} RemOneFirst(g: Layout, d: nat, rest: set<nat>, p: nat, t: Tree)
    requires LaterThan(g, d, rest) && p in g.nodes && FitsBelow(g, p, t) && Solid(t)
    ensures Rem(g, rest, p, Rem(g, {d}, p, t)) == Rem(g, rest + {d}, p, t)
    decreases t
  {
    hide Above, Layout.WellShaped;
    if p == d || p in rest {
    } else if !Above(g, p, d) {
      NotBelow(g, p, d, t);
      RemIgnores(g, d, rest, p, t);
    } else if t.Node? {
      RemBelow(g, d, rest, p, t);
    }
  }

  lemma {:induction false} RemBelow(g: Layout, d: nat, rest: set<nat>, p: nat, t: Tree)
    requires LaterThan(g, d, rest) && p in g.nodes && FitsBelow(g, p, t) && Solid(t) && t.Node? && Above(g, p, d) &&
             p !in rest
    ensures Rem(g, rest, p, Rem(g, {d}, p, t)) == Rem(g, rest + {d}, p, t)
    decreases t, 0
  {
    hide Above, Layout.WellShaped;
    AboveBounds(g, p, d);
    BelowChild(g, p, d);
    g.ChildFacts(p);
    SiblingsApart(g, p);
    var l, r := g.Left(p), g.Right(p);
    if d == l || d == r {
      RemSibling(g, d, rest, p, t);
    } else if AtOrAbove(g, l, d) {
      if AtOrAbove(g, r, d) { Chain(g, l, r, d); }
      NotBelow(g, r, d, t.right);
      RemIgnores(g, d, rest, r, t.right);
      RemOneFirst(g, d, rest, l, t.left);
      RemKeeps(g, d, l, t.left);
    } else {
      NotBelow(g, l, d, t.left);
      RemIgnores(g, d, rest, l, t.left);
      RemOneFirst(g, d, rest, r, t.right);
      RemKeeps(g, d, r, t.right);
    }
  }

  /** One deletion below leaves something. */
  lemma {:induction false} RemKeeps(g: Layout, d: nat, p: nat, t: Tree)
    requires g.WellShaped() && p in g.nodes && FitsBelow(g, p, t) && Solid(t) && p != d
    ensures Rem(g, {d}, p, t).Nil? <==> t.Nil?
    ensures Solid(Rem(g, {d}, p, t))
    decreases t
  {
    if t.Node? {
      g.ChildFacts(p);
      if g.Left(p) != d { RemKeeps(g, d, g.Left(p), t.left); }
      if g.Right(p) != d { RemKeeps(g, d, g.Right(p), t.right); }
    }
  }

  lemma {:induction false} RemSibling(g: Layout, d: nat, rest: set<nat>, p: nat, t: Tree)
    requires LaterThan(g, d, rest) && p in g.nodes && FitsBelow(g, p, t) && Solid(t) && t.Node? && p !in rest
    requires p >= g.m && (d == g.Left(p) || d == g.Right(p))
    ensures Rem(g, rest, p, Rem(g, {d}, p, t)) == Rem(g, rest + {d}, p, t)
  {
    hide Above, Layout.WellShaped;
    g.ChildFacts(p);
    var s, x := Sibling(d), if d == g.Left(p) then t.right else t.left;
    SiblingsApart(g, p);
    NotBelow(g, s, d, x);
    forall e | e in rest + {d}
      ensures !AtOrAbove(g, s, e)
    {
      if e != d && AtOrAbove(g, s, e) { AboveOf(g, p, s, e); NoneAtParent(g, d, rest, e); NeverItself(g, p, s, e); }
    }
    RemApart(g, rest + {d}, s, x);
    forall e | e in rest
      ensures !AtOrAbove(g, p, e)
    {
      NoneAtParent(g, d, rest, e);
    }
    FitsHigher(g, s, p, x);
    RemApart(g, rest, p, x);
  }

  lemma NeverItself(g: Layout, p: nat, s: nat, e: nat)
    requires AtOrAbove(g, p, e) && AtOrAbove(g, s, e) && s < p
    ensures p != e && Above(g, p, e)
  {
    if Above(g, s, e) { AboveBounds(g, s, e); }
  }

  /** Forests whose trees have no empty place inside. */
  ghost predicate AllSolid(g: Layout, f: Forest) {
    ForestOk(g, f) && forall r :: r in f ==> Solid(f[r])
  }

  lemma {:induction false} SolidAfter(g: Layout, f: Forest, d: nat)
    requires AllSolid(g, f) && d in g.nodes
    ensures AllSolid(g, Deleted(g, f, {d}))
  {
    forall r | r in f
      ensures Solid(Rem(g, {d}, r, f[r])) && Fits(g, r, Rem(g, {d}, r, f[r]))
    {
      RemFits(g, {d}, r, f[r]);
      RemOk(g, {d}, r, f[r]);
      if r != d { RemKeeps(g, d, r, f[r]); }
    }
  }

  /** Delete one position after another. */
  ghost function DeletedInTurn(g: Layout, f: Forest, ds: seq<nat>): Forest {
    if |ds| == 0 then f else DeletedInTurn(g, Deleted(g, f, {ds[0]}), ds[1..])
  }

  /** In ascending order, and with nothing above or beside another, one after another is the same
      as all at once. */
  lemma {:induction false} InTurnIsAtOnce(g: Layout, f: Forest, ds: seq<nat>)
    requires AllSolid(g, f) && Separate(g, ds)
    ensures DeletedInTurn(g, f, ds) == Deleted(g, f, Elems(ds))
    decreases |ds|
  {
    hide Above, Layout.WellShaped, Rem, ForestOk;
    if |ds| == 0 {
      NoneDeleted(g, f, Elems(ds));
    } else {
      var d, rest := ds[0], ds[1..];
      assert ds == [d] + rest;
      LaterOnes(g, d, rest);
      SolidAfter(g, f, d);
      SeparateRest(g, ds);
      InTurnIsAtOnce(g, Deleted(g, f, {d}), rest);
      assert Elems(ds) == Elems(rest) + {d};
      forall r | r in f
        ensures Rem(g, Elems(rest), r, Rem(g, {d}, r, f[r])) == Rem(g, Elems(rest) + {d}, r, f[r])
      {
        SolidTree(g, f, r);
        RemOneFirst(g, d, Elems(rest), r, f[r]);
      }
    }
  }

  lemma SolidTree(g: Layout, f: Forest, r: nat)
    requires AllSolid(g, f) && r in f
    ensures g.WellShaped() && r in g.nodes && FitsBelow(g, r, f[r]) && Solid(f[r])
  {
  }

  lemma {:induction false} NoneDeleted(g: Layout, f: Forest, d: set<nat>)
    requires AllSolid(g, f) && d == {}
    ensures Deleted(g, f, d) == f
  {
    forall r | r in f
      ensures Rem(g, d, r, f[r]) == f[r]
    {
      RemApart(g, d, r, f[r]);
    }
  }

  lemma {:induction false} LaterOnes(g: Layout, d: nat, rest: seq<nat>)
    requires Separate(g, [d] + rest)
    ensures LaterThan(g, d, Elems(rest))
  {
    hide Above, Layout.WellShaped;
    var ds := [d] + rest;
    assert ds[0] == d;
    forall e | e in rest
      ensures e in g.nodes && e > d && e != Sibling(d) && !Above(g, e, d) && !Above(g, d, e)
    {
      var i :| 0 <= i < |rest| && rest[i] == e;
      assert ds[i + 1] == e && e in ds;
    }
  }

  /** The largest positions at which everything is deleted stand for all deletions. */
  lemma {:induction false} RemLargest(g: Layout, f: Forest, d: set<nat>, ds: seq<nat>, p: nat)
    requires Deletable(g, f, d) && Largest(g, d, ds) && ValidTargets(g, d) && Present(g, f, p)
    requires g.IsRoot(p) ==> !At(g, f, p).Nil?
    requires g.IsRoot(p) || !Gone(g, d, g.Up(p))
    ensures Rem(g, Elems(ds), p, At(g, f, p)) == Remains(g, f, d, p)
    decreases p
  {
    hide Above, Layout.WellShaped, Separate, Gone, SolidExcept, At;
    if p in ds {
      assert Maximal(g, d, p);
      GoneIff(g, f, d, p);
    } else {
      assert !Maximal(g, d, p);
      if p in d { DeletedGone(g, d, p); }
      if At(g, f, p).Node? {
        RemainsNode(g, f, d, p);
        AtChildren(g, f, p);
        g.ChildFacts(p);
        RemLargest(g, f, d, ds, g.Left(p));
        RemLargest(g, f, d, ds, g.Right(p));
      }
    }
  }

  lemma DeletedGone(g: Layout, d: set<nat>, p: nat)
    requires ValidTargets(g, d) && p in d
    ensures Gone(g, d, p)
  {
  }

  /** Deleting leaves: one after another by the largest positions is the same as all at once. */
  lemma {:induction false} LargestInTurn(g: Layout, f: Forest, d: set<nat>, ds: seq<nat>)
    requires AllSolid(g, f) && Deletable(g, f, d) && Largest(g, d, ds) && ValidTargets(g, d)
    requires forall x :: x in d ==> !At(g, f, x).Nil?
    requires f.Keys == set r | r in g.nodes && g.IsRoot(r)
    ensures DeletedInTurn(g, f, ds) == Deleted(g, f, d)
  {
    hide Above, Layout.WellShaped, Separate, Gone, SolidExcept, Rem, Maximal, ForestOk;
    InTurnIsAtOnce(g, f, ds);
    forall r | r in f
      ensures Rem(g, Elems(ds), r, f[r]) == Rem(g, d, r, f[r])
    {
      SolidTree(g, f, r);
      g.NodeBound(r);
      assert At(g, f, r) == f[r];
      if f[r].Nil? {
        RemNil(g, d, r);
        RemNil(g, Elems(ds), r);
      } else {
        RemLargest(g, f, d, ds, r);
      }
    }
  }

  lemma RemNil(g: Layout, d: set<nat>, p: nat)
    ensures Rem(g, d, p, Nil) == Nil
  {
  }
}
