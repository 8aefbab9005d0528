/** A cache that has no more than it needs. */
module MapLean {
  import opened Positions
  import opened Layouts
  import opened Forests
  import opened Sequential
  import opened Uniqueness
  import opened MapTheory
  import opened MapLift
  import opened MapForest
  import opened MapSteps

  /** An entry is needed when it or its sibling is to be remembered, or when a child of its sibling is in the cache. */
  ghost predicate Needed(g: Layout, nodes: map<nat, Cached>, p: nat) {
    var q := Sibling(p);
    Remember(nodes, p) || Remember(nodes, q) || (q >= g.m && (g.Left(q) in nodes || g.Right(q) in nodes))
  }

  /** Every entry below the tops is needed, but for some. */
  ghost predicate Lean(g: Layout, trees: Forest, nodes: map<nat, Cached>, but: set<nat>) {
    forall p :: p in nodes && p !in trees && p !in but ==> Needed(g, nodes, p)
  }

  /** A position with what is above it, and the siblings of these. */
  ghost function Way(g: Layout, x: nat): set<nat> {
    set p: nat | p < 2 * g.m - 1 && (AtOrAbove(g, p, x) || AtOrAbove(g, Sibling(p), x))
  }

  /** The same with what is below it. */
  ghost function Around(g: Layout, x: nat): set<nat> {
    Way(g, x) + set p: nat | p < 2 * g.m - 1 && Above(g, x, p)
  }

  lemma {:induction false} WayUp(g: Layout, x: nat, p: nat)
    requires p in Way(g, x) && x < 2 * g.m - 1
    ensures p == x || p == Sibling(x) || p in Way(g, g.Up(x))
  {
    hide Above;
    if p != x && p != Sibling(x) {
      if AtOrAbove(g, p, x) {
        AboveParent(g, p, x);
      } else {
        if Sibling(p) == x { SiblingBack(p); }
        AboveParent(g, Sibling(p), x);
      }
    }
  }

  /** What pruning leaves of the two is needed. */
  lemma {:induction false} PruneStays(g: Layout, rows: nat, nodes: map<nat, Cached>, pos: nat, p: nat)
    requires g.m == Pow2(rows) && pos < 2 * g.m - 2 && (p == pos || p == Sibling(pos))
    ensures Valid(rows, pos) && Valid(rows, Sibling(pos))
    ensures p in PrunePosition(rows, nodes, pos) ==> Needed(g, PrunePosition(rows, nodes, pos), p)
  {
    hide Row, NiecesPresent, Pow2;
    NiecesAre(g, rows, nodes, pos);
    SiblingBack(pos);
    SiblingBounds(g, pos);
    NiecesAre(g, rows, nodes, Sibling(pos));
    var nodes1 := if NiecesPresent(rows, nodes, Sibling(pos)) then nodes else nodes - {Sibling(pos)};
    NiecesAre(g, rows, nodes1, pos);
    ChildrenApart(g, Sibling(pos));
    ChildrenApart(g, pos);
    ChildNotPair(g, pos);
  }

  lemma ChildNotPair(g: Layout, pos: nat)
    requires pos < 2 * g.m - 2
    ensures pos >= g.m ==> g.Left(pos) != Sibling(pos) && g.Right(pos) != Sibling(pos)
    ensures Sibling(pos) >= g.m ==> g.Left(Sibling(pos)) != pos && g.Right(Sibling(pos)) != pos
  {
  }

  /** The children of a position are those below it. */
  lemma ChildUp(g: Layout, q: nat)
    requires g.m <= q < 2 * g.m - 1
    ensures g.Up(g.Left(q)) == q && g.Up(g.Right(q)) == q
  {
  }

  /** Pruning a pair on the way up leaves the rest of the way. */
  lemma {:induction false} PruneLean(g: Layout, rows: nat, trees: Forest, nodes: map<nat, Cached>, x: nat,
                                     but: set<nat>)
    requires g.m == Pow2(rows) && Keeps(g, trees, nodes) && Inside(g, trees, x) && x !in trees
    requires Lean(g, trees, nodes, but + Way(g, x))
    ensures x < 2 * g.m - 2 && Valid(rows, x) && Valid(rows, Sibling(x))
    ensures Lean(g, trees, PrunePosition(rows, nodes, x), but + Way(g, g.Up(x)))
  {
    hide Above, Sees, Inside, PrunePosition, TopsOk, AtOrAbove, Way, Provable, Aunts, Needed, Pow2;
    InsideUp(g, trees, x);
    NotTop(g, x);
    PruneStays(g, rows, nodes, x, x);
    var after := PrunePosition(rows, nodes, x);
    forall p | p in after && p !in trees && p !in but + Way(g, g.Up(x))
      ensures Needed(g, after, p)
    {
      Pruned(g, rows, nodes, x, p);
      if p == x || p == Sibling(x) {
        PruneStays(g, rows, nodes, x, p);
      } else {
        if p in Way(g, x) { WayUp(g, x, p); }
        StillNeeded(g, rows, trees, nodes, x, p);
      }
    }
  }

  lemma {:induction false} StillNeeded(g: Layout, rows: nat, trees: Forest, nodes: map<nat, Cached>, x: nat, p: nat)
    requires g.m == Pow2(rows) && TopsOk(g, trees) && Inside(g, trees, x) && x !in trees && x < 2 * g.m - 2
    requires Inside(g, trees, p) && p !in trees && p != x && p != Sibling(x) && Needed(g, nodes, p)
    requires p !in Way(g, g.Up(x))
    ensures Valid(rows, x) && Valid(rows, Sibling(x))
    ensures p in PrunePosition(rows, nodes, x) ==> Needed(g, PrunePosition(rows, nodes, x), p)
  {
    hide Above, Sees, Inside, PrunePosition, TopsOk, Pow2;
    var q := Sibling(p);
    InsideUp(g, trees, p);
    InsideUp(g, trees, x);
    SiblingBack(p);
    SiblingBack(x);
    Pruned(g, rows, nodes, x, p);
    Pruned(g, rows, nodes, x, q);
    if q >= g.m {
      InsideBound(g, trees, q);
      ChildUp(g, q);
      Pruned(g, rows, nodes, x, g.Left(q));
      Pruned(g, rows, nodes, x, g.Right(q));
      if g.Up(x) == q { assert AtOrAbove(g, q, g.Up(x)); }
    }
  }

  /** No entry below the tops is on the way up from a top. */
  lemma {:induction false} WayOfTop(g: Layout, trees: Forest, nodes: map<nat, Cached>, r: nat, but: set<nat>)
    requires TopsOk(g, trees) && TrueNodes(g, trees, nodes) && r in trees && Lean(g, trees, nodes, but + Way(g, r))
    ensures Lean(g, trees, nodes, but)
  {
    hide Above, Sees, Inside, TopsOk, Needed;
    forall p | p in nodes && p !in trees
      ensures p !in Way(g, r)
    {
      assert Inside(g, trees, p);
      InsideUp(g, trees, p);
      InsideNotAbove(g, trees, p, r);
      InsideNotAbove(g, trees, Sibling(p), r);
    }
  }

  lemma {:induction false} InsideNotAbove(g: Layout, trees: Forest, p: nat, r: nat)
    requires TopsOk(g, trees) && Inside(g, trees, p) && p !in trees && r in trees
    ensures !AtOrAbove(g, p, r)
  {
    hide Above, Inside;
    if AtOrAbove(g, p, r) {
      var t := TopAbove(g, trees, p);
      InsideBound(g, trees, p);
      AboveStrict(g, t, p, r);
    }
  }

  lemma {:induction false} AboveStrict(g: Layout, t: nat, p: nat, r: nat)
    requires AtOrAbove(g, t, p) && t != p && AtOrAbove(g, p, r) && p < 2 * g.m - 1
    ensures Above(g, t, r)
  {
    hide Above;
    AboveFar(g, t, p, r);
    AboveBounds(g, t, p);
    if p != r { AboveBounds(g, p, r); }
  }

  /** A position below another is one of its children, when it is the parent. */
  lemma {:induction false} IsChild(g: Layout, y: nat)
    requires y < 2 * g.m - 2
    ensures var b := g.Up(y); b >= g.m && (y == g.Left(b) || y == g.Right(b))
  {
  }

  /** Away from the move. */
  lemma {:induction false} LeanElsewhere(g: Layout, rows: nat, s: nat, trees: Forest, trees': Forest,
                                         nodes: map<nat, Cached>, nodes': map<nat, Cached>, but: set<nat>, q: nat)
    requires GivesWay(g, rows, s) && TopsLift(g, s, trees, trees') && NodesLift(g, s, nodes, nodes')
    requires (forall p :: p in nodes ==> Inside(g, trees, p)) && Lean(g, trees, nodes, but + Around(g, s))
    requires q in nodes' && q !in trees' && q !in but + Way(g, g.Up(s)) && !Affected(g, s, q)
    ensures Needed(g, nodes', q)
  {
    hide Above, Layout.WellShaped, Shift, Layout.IsRoot, Inside, TopsOk;
    var u, r := g.Up(s), Sibling(q);
    g.NonRootFacts(s);
    NotAround(g, rows, s, q);
    assert q in nodes && Needed(g, nodes, q);
    InsideUp(g, trees, q);
    InsideBound(g, trees, q);
    InsideBound(g, trees, r);
    Outside(g, rows, s, q);
    if r >= g.m { ChildrenStay(g, rows, s, nodes, nodes', q); }
  }

  lemma {:induction false} ChildrenStay(g: Layout, rows: nat, s: nat, nodes: map<nat, Cached>, nodes': map<nat, Cached>,
                                        q: nat)
    requires GivesWay(g, rows, s) && NodesLift(g, s, nodes, nodes') && q < 2 * g.m - 1 && q !in Way(g, g.Up(s))
    requires var r := Sibling(q); g.m <= r < 2 * g.m - 1 && !Affected(g, s, r)
    ensures var r := Sibling(q);
            (g.Left(r) in nodes ==> g.Left(r) in nodes') && (g.Right(r) in nodes ==> g.Right(r) in nodes')
  {
    hide Above, Layout.WellShaped, Shift, Layout.IsRoot;
    var u, r := g.Up(s), Sibling(q);
    g.NonRootFacts(s);
    ChildUp(g, r);
    if u == g.Left(r) || u == g.Right(r) {
      UpAboveAny(g, u);
      assert false;
    }
    NotMoved(g, s, r, g.Left(r));
    NotMoved(g, s, r, g.Right(r));
  }

  lemma {:induction false} NotMoved(g: Layout, s: nat, r: nat, c: nat)
    requires !Affected(g, s, r) && g.Up(c) == r && c != g.Up(s)
    ensures !Affected(g, s, c)
  {
    hide Above;
    if Above(g, g.Up(s), c) { AboveParent(g, g.Up(s), c); }
  }

  /** What is not around the parent is not around the one that gives way. */
  lemma {:induction false} NotAround(g: Layout, rows: nat, s: nat, q: nat)
    requires GivesWay(g, rows, s) && !Affected(g, s, q) && q !in Way(g, g.Up(s))
    ensures q !in Around(g, s)
  {
    hide Above, Layout.WellShaped, Layout.IsRoot;
    var u := g.Up(s);
    g.NonRootFacts(s);
    UpAboveAny(g, s);
    UpAboveAny(g, Sibling(s));
    SameParent(g, s);
    if q in Way(g, s) { WayUp(g, s, q); }
    if Above(g, s, q) { AboveOf(g, u, s, q); }
  }

  /** What moves is not around it either. */
  lemma {:induction false} MovedNotAround(g: Layout, rows: nat, s: nat, p: nat)
    requires GivesWay(g, rows, s) && Above(g, Sibling(s), p)
    ensures p !in Around(g, s)
  {
    hide Above, Layout.WellShaped, Layout.IsRoot, Shift;
    var c, u := Sibling(s), g.Up(s);
    MoveFacts(g, rows, s, p);
    AffectedIff(g, rows, s, p);
    AffectedIff(g, rows, s, s);
    if p in Way(g, s) {
      WayUp(g, s, p);
      if p == c { AboveBounds(g, c, p); }
      AboveOf(g, u, c, Sibling(p));
      if AtOrAbove(g, p, u) { AboveBounds(g, u, p); if p != u { AboveBounds(g, p, u); } }
      if AtOrAbove(g, Sibling(p), u) { NotUpAgain(g, u, c, Sibling(p)); }
    }
  }

  lemma {:induction false} NotUpAgain(g: Layout, u: nat, c: nat, y: nat)
    requires g.Up(c) == u && c < u && AtOrAbove(g, c, y)
    ensures !AtOrAbove(g, y, u)
  {
    hide Above;
    if y != c { AboveBounds(g, c, y); }
    if AtOrAbove(g, y, u) && y != u { AboveBounds(g, y, u); }
  }

  /** Where it moved to. */
  lemma {:induction false} LeanMoved(g: Layout, rows: nat, s: nat, trees: Forest, trees': Forest,
                                     nodes: map<nat, Cached>, nodes': map<nat, Cached>, but: set<nat>, q: nat)
    requires GivesWay(g, rows, s) && TopsLift(g, s, trees, trees') && NodesLift(g, s, nodes, nodes')
    requires Lean(g, trees, nodes, but + Around(g, s)) && (forall p :: p in but ==> !Above(g, g.Up(s), p))
    requires q in nodes' && Affected(g, s, q) && q != g.Up(s)
    ensures Needed(g, nodes', q)
  {
    hide Above, Layout.WellShaped, Shift, Layout.IsRoot, Inside, TopsOk, Around;
    var c := Sibling(s);
    var p := CameFrom(g, rows, s, q);
    MoveFacts(g, rows, s, p);
    MovedNotAround(g, rows, s, p);
    BelowNotTop(g, rows, s, trees, trees', p);
    assert p in nodes && Needed(g, nodes, p);
    var r := Sibling(p);
    MoveFacts(g, rows, s, r);
    if r >= g.m && g.Left(r) in nodes { ChildMoves(g, rows, s, nodes, nodes', r, g.Left(r)); }
    if r >= g.m && g.Right(r) in nodes { ChildMoves(g, rows, s, nodes, nodes', r, g.Right(r)); }
  }

  lemma {:induction false} ChildMoves(g: Layout, rows: nat, s: nat, nodes: map<nat, Cached>, nodes': map<nat, Cached>,
                                      r: nat, x: nat)
    requires GivesWay(g, rows, s) && NodesLift(g, s, nodes, nodes') && AtOrAbove(g, Sibling(s), r) && x in nodes
    requires g.m <= r && (x == g.Left(r) || x == g.Right(r))
    ensures var b := Shift(g, s, r); b >= g.m && (g.Left(b) in nodes' || g.Right(b) in nodes')
  {
    hide Above, Layout.WellShaped, Shift, Layout.IsRoot;
    MoveFacts(g, rows, s, r);
    g.NodeBound(r);
    ChildUp(g, r);
    ChildrenApart(g, r);
    LowChild(g, r);
    AboveTrans(g, Sibling(s), x);
    MoveFacts(g, rows, s, x);
    if x == Sibling(s) { AboveBounds(g, x, x); }
    g.NodeBound(Shift(g, s, x));
    AboveBounds(g, g.Up(s), Shift(g, s, x));
    IsChild(g, Shift(g, s, x));
  }

  lemma LowChild(g: Layout, r: nat)
    requires g.m <= r < 2 * g.m - 1
    ensures g.Left(r) < 2 * g.m - 2 && g.Right(r) < 2 * g.m - 2
  {
  }

  /** A move keeps a cache lean, but for the way up from where it ends. */
  lemma {:induction false} LiftLean(g: Layout, rows: nat, s: nat, trees: Forest, trees': Forest,
                                    nodes: map<nat, Cached>, nodes': map<nat, Cached>, but: set<nat>)
    requires GivesWay(g, rows, s) && TopsLift(g, s, trees, trees') && NodesLift(g, s, nodes, nodes')
    requires (forall p :: p in nodes ==> Inside(g, trees, p)) && Lean(g, trees, nodes, but + Around(g, s))
    requires forall p :: p in but ==> !Above(g, g.Up(s), p)
    ensures Lean(g, trees', nodes', but + Way(g, g.Up(s)))
  {
    hide Above, Layout.WellShaped, Shift, Layout.IsRoot, Inside, TopsOk, Around, Way, NodesLift, TopsLift, GivesWay,
         Needed, Affected, AtOrAbove;
    forall q | q in nodes' && q !in trees' && q !in but + Way(g, g.Up(s))
      ensures Needed(g, nodes', q)
    {
      if Affected(g, s, q) {
        SelfOnWay(g, rows, s);
        LeanMoved(g, rows, s, trees, trees', nodes, nodes', but, q);
      } else {
        LeanElsewhere(g, rows, s, trees, trees', nodes, nodes', but, q);
      }
    }
  }

  lemma SelfOnWay(g: Layout, rows: nat, s: nat)
    requires GivesWay(g, rows, s)
    ensures g.Up(s) in Way(g, g.Up(s))
  {
    hide Above, Layout.WellShaped, Layout.IsRoot;
    g.NonRootFacts(s);
  }

  /** With nothing missing and nothing to spare: below the tops, the entries are the remembered leaves and the siblings
      on the ways up from them. */
  lemma {:induction false} StoresExactly(g: Layout, trees: Forest, nodes: map<nat, Cached>, p: nat)
    requires Keeps(g, trees, nodes) && Lean(g, trees, nodes, {}) && Inside(g, trees, p) && p !in trees
    ensures p in nodes <==>
              p in Remembered(nodes) || exists c :: c in Remembered(nodes) && AtOrAbove(g, Sibling(p), c)
    decreases p
  {
    hide Above, Inside, TopsOk, TrueNodes, Provable, Aunts, AtOrAbove;
    KeepsParts(g, trees, nodes);
    var q := Sibling(p);
    InsideUp(g, trees, p);
    SiblingBack(p);
    if exists c :: c in Remembered(nodes) && AtOrAbove(g, q, c) {
      var c :| c in Remembered(nodes) && AtOrAbove(g, q, c);
      ProvableAt(g, trees, nodes, q, c);
    }
    if p in nodes {
      assert Needed(g, nodes, p);
      if Remember(nodes, q) {
        SelfAbove(g, q);
        assert q in Remembered(nodes);
      } else if !Remember(nodes, p) {
        var x := if g.Left(q) in nodes then g.Left(q) else g.Right(q);
        InsideBound(g, trees, q);
        InsideChild(g, trees, q);
        ChildBelow(g, p);
        StoresExactly(g, trees, nodes, x);
        var c := BelowEither(g, nodes, q, x);
      }
    }
  }

  lemma SelfAbove(g: Layout, q: nat)
    ensures AtOrAbove(g, q, q)
  {
  }

  lemma ChildBelow(g: Layout, p: nat)
    requires p < 2 * g.m - 2
    ensures var q := Sibling(p); q >= g.m ==> g.Left(q) < p && g.Right(q) < p
  {
  }

  /** A remembered leaf below a child is below the parent. */
  lemma {:induction false} BelowEither(g: Layout, nodes: map<nat, Cached>, q: nat, x: nat) returns (c: nat)
    requires g.m <= q < 2 * g.m - 1 && (x == g.Left(q) || x == g.Right(q))
    requires x in Remembered(nodes) || exists c :: c in Remembered(nodes) && AtOrAbove(g, Sibling(x), c)
    ensures c in Remembered(nodes) && AtOrAbove(g, q, c)
  {
    hide Above;
    ChildUp(g, q);
    SameParent(g, x);
    if x in Remembered(nodes) {
      c := x;
      UpAboveAny(g, x);
    } else {
      c :| c in Remembered(nodes) && AtOrAbove(g, Sibling(x), c);
      AboveOf(g, q, Sibling(x), c);
    }
  }
}
