/** A cache when a subtree moves up into the place of its parent. */
module MapLift {
  import opened Positions
  import opened Layouts
  import opened Forests
  import opened Deletion
  import opened Sequential
  import opened Uniqueness
  import opened UpdateData
  import opened Navigation
  import opened Inverse
  import opened MapTheory

  /** `s` gives way, and its sibling moves up. */
  ghost predicate GivesWay(g: Layout, rows: nat, s: nat) {
    g.m == Pow2(rows) && g.WellShaped() && s in g.nodes && !g.IsRoot(s)
  }

  lemma {:induction false} AboveFar(g: Layout, a: nat, b: nat, p: nat)
    requires AtOrAbove(g, a, b) && AtOrAbove(g, b, p) && b < 2 * g.m - 1
    ensures AtOrAbove(g, a, p)
    decreases 2 * g.m - p
  {
    if b != p {
      AboveParent(g, b, p);
      AboveFar(g, a, b, g.Up(p));
      AboveTrans(g, a, p);
    }
  }

  /** The moved positions, with where they come from and go to. */
  lemma {:induction false} MoveFacts(g: Layout, rows: nat, s: nat, p: nat)
    requires GivesWay(g, rows, s) && AtOrAbove(g, Sibling(s), p)
    ensures var c, u := Sibling(s), g.Up(s);
            && c in g.nodes && p in g.nodes && u in g.nodes && g.m <= u < 2 * g.m - 1 && g.Up(c) == u &&
               Sibling(c) == s && s < u && c < u
            && Above(g, u, p) && AtOrAbove(g, u, Shift(g, s, p)) && Shift(g, s, p) in g.nodes && Shift(g, s, p) >= g.m
            && (p == c <==> Shift(g, s, p) == u)
            && (p != c ==>
                  && Above(g, c, p) && AtOrAbove(g, c, g.Up(p)) && AtOrAbove(g, c, Sibling(p)) && p < 2 * g.m - 2
                  && g.Up(Shift(g, s, p)) == Shift(g, s, g.Up(p))
                  && Shift(g, s, Sibling(p)) == Sibling(Shift(g, s, p)) && Above(g, u, Shift(g, s, p)))
    decreases 2 * g.m - p
  {
    hide Above, Layout.WellShaped, Shift, Child, Pow2, Row, Layout.IsRoot;
    var c, u := Sibling(s), g.Up(s);
    g.NonRootFacts(s);
    BelowNode(g, c, p);
    g.NodeBound(p);
    ShiftFacts(g, s, p);
    if p != c {
      MoveBelow(g, rows, s, p);
    } else {
      g.NodeBound(c);
    }
  }

  lemma {:induction false} MoveBelow(g: Layout, rows: nat, s: nat, p: nat)
    requires GivesWay(g, rows, s) && Above(g, Sibling(s), p) && p in g.nodes
    ensures var c, u := Sibling(s), g.Up(s);
            && AtOrAbove(g, c, g.Up(p)) && AtOrAbove(g, c, Sibling(p)) && p < 2 * g.m - 2 && Shift(g, s, p) >= g.m
            && g.Up(Shift(g, s, p)) == Shift(g, s, g.Up(p)) && Shift(g, s, Sibling(p)) == Sibling(Shift(g, s, p))
            && Shift(g, s, p) < u && Above(g, u, Shift(g, s, p)) && AtOrAbove(g, u, Shift(g, s, p))
    decreases 2 * g.m - p, 0
  {
    hide Above, Layout.WellShaped, Shift, Child, Pow2, Row, Layout.IsRoot;
    var c, u := Sibling(s), g.Up(s);
    g.NonRootFacts(s);
    AboveParent(g, c, p);
    AboveBounds(g, c, p);
    RootBelow(g, c, p);
    NotRootBelow(g, p);
    g.NonRootFacts(p);
    NotLast(g, p);
    AboveOne(g, c, p);
    ShiftFacts(g, s, p);
    BelowNode(g, c, Sibling(p));
    ShiftFacts(g, s, Sibling(p));
    MoveFacts(g, rows, s, g.Up(p));
    var q := Shift(g, s, g.Up(p));
    ChildParity(g, q, p % 2);
    ChildParity(g, q, Sibling(p) % 2);
    ChildSibling(g, q, p % 2);
    OtherParity(p);
    ShiftRow(g, rows, s, p);
    AboveTrans(g, u, Shift(g, s, p));
    AboveBounds(g, u, Shift(g, s, p));
  }

  lemma OtherParity(p: nat)
    ensures Sibling(p) % 2 == 1 - p % 2
  {
  }

  lemma {:induction false} AboveOne(g: Layout, c: nat, p: nat)
    requires Above(g, c, p) && Sibling(p) < 2 * g.m - 1 && g.Up(Sibling(p)) == g.Up(p)
    ensures Above(g, c, Sibling(p))
  {
    AboveParent(g, c, p);
    AboveTrans(g, c, Sibling(p));
  }

  /** The place of the parent, and everything below it. */
  ghost predicate Affected(g: Layout, s: nat, p: nat) {
    AtOrAbove(g, g.Up(s), p)
  }

  /** The tops before and after: elsewhere the same; below the parent none are left. */
  ghost predicate TopsLift(g: Layout, s: nat, trees: Forest, trees': Forest) {
    && TopsOk(g, trees) && TopsOk(g, trees')
    && (forall p: nat :: !Affected(g, s, p) ==>
          (p in trees' <==> p in trees) && (Inside(g, trees', p) <==> Inside(g, trees, p)))
    && (forall p: nat :: Above(g, g.Up(s), p) ==> p !in trees' && Inside(g, trees, p) && Inside(g, trees', p))
    && Inside(g, trees', g.Up(s))
    && (if s in trees then Sibling(s) in trees && g.Up(s) in trees' && g.Up(s) !in trees
        else Sibling(s) !in trees && (g.Up(s) in trees' <==> g.Up(s) in trees))
  }

  /** The cache before and after: what is at or below the sibling moves, what is elsewhere stays. */
  ghost predicate NodesLift(g: Layout, s: nat, nodes: map<nat, Cached>, nodes': map<nat, Cached>) {
    && (forall p: nat :: !Affected(g, s, p) ==> (p in nodes' <==> p in nodes))
    && (forall p: nat :: !Affected(g, s, p) && p in nodes && p in nodes' ==> nodes'[p].remember == nodes[p].remember)
    && (forall p: nat :: AtOrAbove(g, Sibling(s), p) ==> (Shift(g, s, p) in nodes' <==> p in nodes))
    && (forall p: nat :: AtOrAbove(g, Sibling(s), p) && p in nodes && Shift(g, s, p) in nodes' ==>
        nodes'[Shift(g, s, p)] == nodes[p])
    && (forall q: nat :: Affected(g, s, q) && q in nodes' ==> q >= g.m)
  }

  /** Everything in the cache after the move was in it before. */
  lemma {:induction false} CameFrom(g: Layout, rows: nat, s: nat, q: nat) returns (p: nat)
    requires GivesWay(g, rows, s) && Affected(g, s, q) && q >= g.m
    ensures AtOrAbove(g, Sibling(s), p) && Shift(g, s, p) == q
  {
    hide Above, Layout.WellShaped, Shift, Row, Pow2, Layout.IsRoot;
    g.NonRootFacts(s);
    BelowNode(g, g.Up(s), q);
    NextOfPrev(g, rows, s, q);
    p := CalcPrevPosition(q, s, rows);
    NextIsShift(g, rows, s, p);
  }

  /** A node above a moved one comes from a node above the original. */
  lemma {:induction false} AboveMoved(g: Layout, rows: nat, s: nat, x: nat, y': nat) returns (y: nat)
    requires GivesWay(g, rows, s) && AtOrAbove(g, Sibling(s), x) && AtOrAbove(g, y', Shift(g, s, x)) &&
             Affected(g, s, y')
    ensures AtOrAbove(g, Sibling(s), y) && AtOrAbove(g, y, x) && Shift(g, s, y) == y'
    decreases 2 * g.m - x
  {
    hide Above, Layout.WellShaped, Shift, Layout.IsRoot;
    MoveFacts(g, rows, s, x);
    if y' == Shift(g, s, x) {
      y := x;
    } else if x == Sibling(s) {
      AboveBounds(g, y', g.Up(s));
      if y' != g.Up(s) { AboveBounds(g, g.Up(s), y'); }
      y := x;
    } else {
      AboveParent(g, y', Shift(g, s, x));
      g.NodeBound(x);
      AboveParent(g, Sibling(s), x);
      y := AboveMoved(g, rows, s, g.Up(x), y');
      AboveTrans(g, y, x);
    }
  }

  /** Positions beside the affected ones. */
  lemma {:induction false} Outside(g: Layout, rows: nat, s: nat, p: nat)
    requires GivesWay(g, rows, s) && p < 2 * g.m - 1 && !Affected(g, s, p)
    ensures g.Up(p) != g.Up(s) && !Affected(g, s, g.Up(p))
    ensures Affected(g, s, Sibling(p)) ==> Sibling(p) == g.Up(s)
  {
    hide Above, Layout.WellShaped, Layout.IsRoot;
    var u := g.Up(s);
    if AtOrAbove(g, u, g.Up(p)) { AboveTrans(g, u, p); }
    SameParent(g, p);
    if Above(g, u, Sibling(p)) { AboveParent(g, u, Sibling(p)); }
  }

  lemma SameParent(g: Layout, p: nat)
    ensures g.Up(Sibling(p)) == g.Up(p)
  {
  }

  /** The sibling of what is above a remembered leaf, away from the move. */
  lemma {:induction false} StaysBeside(g: Layout, rows: nat, s: nat, nodes: map<nat, Cached>, nodes': map<nat, Cached>,
                                       y: nat)
    requires GivesWay(g, rows, s) && NodesLift(g, s, nodes, nodes') && Sibling(s) in nodes
    requires y < 2 * g.m - 1 && (!Affected(g, s, y) || y == g.Up(s)) && Sibling(y) in nodes
    ensures Sibling(y) in nodes'
  {
    hide Above, Layout.WellShaped, Shift, Layout.IsRoot;
    var u := g.Up(s);
    MoveFacts(g, rows, s, Sibling(s));
    if y == u {
      SiblingNotBelow(g, rows, s);
    } else {
      Outside(g, rows, s, y);
    }
  }

  lemma {:induction false} SiblingNotBelow(g: Layout, rows: nat, s: nat)
    requires GivesWay(g, rows, s)
    ensures !Affected(g, s, Sibling(g.Up(s)))
  {
    hide Layout.WellShaped, Layout.IsRoot;
    g.NonRootFacts(s);
    var u := g.Up(s);
    SameParent(g, u);
    if Above(g, u, Sibling(u)) { AboveParent(g, u, Sibling(u)); }
  }

  /** What is remembered after the move was remembered before. */
  lemma {:induction false} RememberedFrom(g: Layout, rows: nat, s: nat, nodes: map<nat, Cached>,
                                          nodes': map<nat, Cached>, c': nat)
    returns (c: nat)
    requires GivesWay(g, rows, s) && NodesLift(g, s, nodes, nodes') && c' in Remembered(nodes')
    ensures c in Remembered(nodes)
    ensures if Affected(g, s, c') then AtOrAbove(g, Sibling(s), c) && Shift(g, s, c) == c' else c == c'
  {
    hide Above, Layout.WellShaped, Shift, Layout.IsRoot;
    if Affected(g, s, c') {
      c := CameFrom(g, rows, s, c');
    } else {
      c := c';
    }
  }

  lemma {:induction false} LiftProvable(g: Layout, rows: nat, s: nat, trees: Forest, trees': Forest,
                                        nodes: map<nat, Cached>, nodes': map<nat, Cached>, y': nat, c': nat)
    requires GivesWay(g, rows, s) && TopsLift(g, s, trees, trees') && NodesLift(g, s, nodes, nodes')
    requires Provable(g, trees, nodes) && Sibling(s) in nodes
    requires c' in Remembered(nodes') && AtOrAbove(g, y', c') && Inside(g, trees', y') && y' !in trees'
    ensures Sibling(y') in nodes'
  {
    hide Above, Layout.WellShaped, Shift, Layout.IsRoot, Inside, TopsOk, Provable;
    var u := g.Up(s);
    g.NonRootFacts(s);
    InsideBound(g, trees', y');
    var c := RememberedFrom(g, rows, s, nodes, nodes', c');
    if !Affected(g, s, y') {
      if Affected(g, s, c') {
        Nested(g, u, y', c');
        MoveFacts(g, rows, s, c);
        AboveFar(g, y', u, c);
      }
      ProvableAt(g, trees, nodes, y', c);
      StaysBeside(g, rows, s, nodes, nodes', y');
    } else {
      AboveFar(g, u, y', c');
      var y := AboveMoved(g, rows, s, c, y');
      MoveFacts(g, rows, s, y);
      if y == Sibling(s) {
        MoveFacts(g, rows, s, c);
        ParentInside(g, s, trees, trees');
        ProvableAt(g, trees, nodes, u, c);
        StaysBeside(g, rows, s, nodes, nodes', u);
      } else {
        BelowNotTop(g, rows, s, trees, trees', y);
        ProvableAt(g, trees, nodes, y, c);
      }
    }
  }

  lemma ProvableAt(g: Layout, trees: Forest, nodes: map<nat, Cached>, y: nat, c: nat)
    requires Provable(g, trees, nodes) && c in Remembered(nodes) && AtOrAbove(g, y, c) && Inside(g, trees, y) &&
             y !in trees
    ensures Sibling(y) in nodes
  {
    hide Above, Inside;
  }

  /** Of two nodes above a position, one is above the other. */
  lemma {:induction false} Nested(g: Layout, u: nat, y: nat, c: nat)
    requires AtOrAbove(g, u, c) && AtOrAbove(g, y, c) && !AtOrAbove(g, u, y)
    ensures AtOrAbove(g, y, u)
  {
    hide Above;
    if u <= y { Chain(g, u, y, c); } else { Chain(g, y, u, c); }
  }

  lemma {:induction false} ParentInside(g: Layout, s: nat, trees: Forest, trees': Forest)
    requires TopsLift(g, s, trees, trees') && g.Up(s) !in trees' && s < 2 * g.m - 1
    ensures Inside(g, trees, g.Up(s)) && g.Up(s) !in trees && s !in trees && Sibling(s) !in trees
  {
    hide Above, TopsOk;
    UpAboveAny(g, s);
    assert Above(g, g.Up(s), s);
  }

  lemma UpAboveAny(g: Layout, s: nat)
    requires s < 2 * g.m - 1
    ensures Above(g, g.Up(s), s)
  {
  }

  lemma {:induction false} BelowNotTop(g: Layout, rows: nat, s: nat, trees: Forest, trees': Forest, y: nat)
    requires GivesWay(g, rows, s) && TopsLift(g, s, trees, trees') && Above(g, Sibling(s), y) && Above(g, g.Up(s), y)
    ensures Inside(g, trees, y) && y !in trees
  {
    hide Above, Inside, Layout.WellShaped, Layout.IsRoot;
    var c := Sibling(s);
    g.NonRootFacts(s);
    UpAboveAny(g, c);
    SameParent(g, s);
    if y in trees {
      assert Inside(g, trees, c);
      var t := TopAbove(g, trees, c);
      AboveFar(g, t, c, y);
      if t == y { AboveBounds(g, c, y); if t != c { AboveBounds(g, t, c); } }
    }
  }

  lemma {:induction false} LiftAunts(g: Layout, rows: nat, s: nat, trees: Forest, trees': Forest,
                                     nodes: map<nat, Cached>, nodes': map<nat, Cached>, x': nat)
    requires GivesWay(g, rows, s) && TopsLift(g, s, trees, trees') && NodesLift(g, s, nodes, nodes')
    requires Aunts(g, trees, nodes) && Sibling(s) in nodes && (forall p :: p in nodes ==> Inside(g, trees, p))
    requires x' in nodes' && x' < 2 * g.m - 1 && x' !in trees' && g.Up(x') !in trees'
    ensures Sibling(g.Up(x')) in nodes'
  {
    hide Above, Layout.WellShaped, Shift, Layout.IsRoot, Inside, TopsOk, Aunts;
    var u := g.Up(s);
    g.NonRootFacts(s);
    if !Affected(g, s, x') {
      Outside(g, rows, s, x');
      AuntAt(g, trees, nodes, x');
      InsideUp(g, trees, x');
      StaysBeside(g, rows, s, nodes, nodes', g.Up(x'));
    } else {
      var x := CameFrom(g, rows, s, x');
      MoveFacts(g, rows, s, x);
      if x == Sibling(s) {
        ParentInside(g, s, trees, trees');
        SameParent(g, s);
        AuntAt(g, trees, nodes, x);
        SecondAunt(g, rows, s, trees, trees', nodes, nodes');
      } else if g.Up(x) == Sibling(s) {
        MoveFacts(g, rows, s, g.Up(x));
        ParentInside(g, s, trees, trees');
        BelowNotTop(g, rows, s, trees, trees', x);
        AuntAt(g, trees, nodes, x);
        SameParent(g, s);
        AuntAt(g, trees, nodes, s);
        StaysBeside(g, rows, s, nodes, nodes', u);
      } else {
        MoveFacts(g, rows, s, g.Up(x));
        BelowNotTop(g, rows, s, trees, trees', x);
        BelowNotTop(g, rows, s, trees, trees', g.Up(x));
        AuntAt(g, trees, nodes, x);
      }
    }
  }

  lemma AuntAt(g: Layout, trees: Forest, nodes: map<nat, Cached>, c: nat)
    requires Aunts(g, trees, nodes) && c in nodes && c !in trees && g.Up(c) !in trees
    ensures Sibling(g.Up(c)) in nodes
  {
  }

  lemma {:induction false} SecondAunt(g: Layout, rows: nat, s: nat, trees: Forest, trees': Forest,
                                      nodes: map<nat, Cached>, nodes': map<nat, Cached>)
    requires GivesWay(g, rows, s) && TopsLift(g, s, trees, trees') && NodesLift(g, s, nodes, nodes')
    requires Aunts(g, trees, nodes) && Sibling(s) in nodes
    requires Sibling(g.Up(s)) in nodes && g.Up(s) !in trees' && g.Up(g.Up(s)) !in trees'
    ensures Sibling(g.Up(g.Up(s))) in nodes'
  {
    hide Above, Layout.WellShaped, Shift, Layout.IsRoot, Inside, Aunts;
    var u := g.Up(s);
    g.NonRootFacts(s);
    ParentInside(g, s, trees, trees');
    InsideUp(g, trees, u);
    SiblingNotBelow(g, rows, s);
    Outside(g, rows, s, Sibling(u));
    AuntAt(g, trees, nodes, Sibling(u));
    StaysBeside(g, rows, s, nodes, nodes', g.Up(u));
  }

  /** The trees before and after: moved ones are found at their new positions, others stay, but for
      those above. */
  ghost predicate TreesLift(g: Layout, s: nat, trees: Forest, trees': Forest) {
    && (forall p: nat :: AtOrAbove(g, Sibling(s), p) ==> Sees(g, trees', Shift(g, s, p)) == Sees(g, trees, p))
    && (forall p: nat :: !Affected(g, s, p) && !Above(g, p, g.Up(s)) ==> Sees(g, trees', p) == Sees(g, trees, p))
    && (forall p: nat :: !Affected(g, s, p) && Above(g, p, g.Up(s)) && Inside(g, trees, p) ==>
          Sees(g, trees, p).Node? && Sees(g, trees', p).Node?)
  }

  /** The hashes above the move. */
  ghost predicate HashesAbove(g: Layout, s: nat, trees': Forest, nodes': map<nat, Cached>) {
    forall p: nat :: p in nodes' && Above(g, p, g.Up(s)) ==> nodes'[p].hash == Merkle(Sees(g, trees', p))
  }

  ghost predicate SameElsewhere(g: Layout, s: nat, nodes: map<nat, Cached>, nodes': map<nat, Cached>) {
    forall p: nat :: !Affected(g, s, p) && !Above(g, p, g.Up(s)) && p in nodes && p in nodes' ==> nodes'[p] == nodes[p]
  }

  lemma {:induction false} LiftTrue(g: Layout, rows: nat, s: nat, trees: Forest, trees': Forest,
                                    nodes: map<nat, Cached>, nodes': map<nat, Cached>, p: nat)
    requires GivesWay(g, rows, s) && TopsLift(g, s, trees, trees') && NodesLift(g, s, nodes, nodes') &&
             TreesLift(g, s, trees, trees')
    requires TrueNodes(g, trees, nodes) && HashesAbove(g, s, trees', nodes') && SameElsewhere(g, s, nodes, nodes') &&
             Sibling(s) in nodes
    requires s !in trees ==> !Sees(g, trees, Sibling(s)).Nil?
    ensures p in trees' ==> p in nodes'
    ensures p in nodes' ==> Inside(g, trees', p) && nodes'[p].hash == Merkle(Sees(g, trees', p)) &&
                            (p !in trees' ==> !Sees(g, trees', p).Nil?) &&
                                (nodes'[p].remember ==> Sees(g, trees', p).Leaf?)
  {
    hide Above, Layout.WellShaped, Shift, Layout.IsRoot, Inside, TopsOk, Sees, Merkle;
    MoveFacts(g, rows, s, Sibling(s));
    if Affected(g, s, p) && p in nodes' {
      var q := CameFrom(g, rows, s, p);
      MoveFacts(g, rows, s, q);
      if q != Sibling(s) {
        BelowNotTop(g, rows, s, trees, trees', q);
      }
    }
  }

  /** A cache that keeps what it must before a move does so after it. */
  lemma {:induction false} LiftKeeps(g: Layout, rows: nat, s: nat, trees: Forest, trees': Forest,
                                     nodes: map<nat, Cached>, nodes': map<nat, Cached>)
    requires GivesWay(g, rows, s) && TopsLift(g, s, trees, trees') && NodesLift(g, s, nodes, nodes') &&
             TreesLift(g, s, trees, trees')
    requires Keeps(g, trees, nodes) && HashesAbove(g, s, trees', nodes') && SameElsewhere(g, s, nodes, nodes') &&
             Sibling(s) in nodes
    requires s !in trees ==> !Sees(g, trees, Sibling(s)).Nil?
    ensures Keeps(g, trees', nodes')
  {
    hide Above, Layout.WellShaped, Shift, Layout.IsRoot, Inside, Sees, Merkle, Provable, Aunts, TrueNodes, TopsLift,
         NodesLift, TreesLift, HashesAbove, SameElsewhere, AtOrAbove, TopsOk;
    TopsAfter(g, s, trees, trees');
    forall p: nat
      ensures p in trees' ==> p in nodes'
      ensures p in nodes' ==> Inside(g, trees', p) && nodes'[p].hash == Merkle(Sees(g, trees', p)) &&
                              (p !in trees' ==> !Sees(g, trees', p).Nil?) &&
                                  (nodes'[p].remember ==> Sees(g, trees', p).Leaf?)
    {
      LiftTrue(g, rows, s, trees, trees', nodes, nodes', p);
    }
    AllTrueNodes(g, trees', nodes');
    AllInside(g, trees, nodes);
    forall y: nat, c | c in Remembered(nodes') && AtOrAbove(g, y, c) && Inside(g, trees', y) && y !in trees'
      ensures Sibling(y) in nodes'
    {
      LiftProvable(g, rows, s, trees, trees', nodes, nodes', y, c);
    }
    AllProvable(g, trees', nodes');
    forall c | c in nodes' && c !in trees' && g.Up(c) !in trees'
      ensures Sibling(g.Up(c)) in nodes'
    {
      InsideBound(g, trees', c);
      LiftAunts(g, rows, s, trees, trees', nodes, nodes', c);
    }
    AllAunts(g, trees', nodes');
  }

  lemma TopsAfter(g: Layout, s: nat, trees: Forest, trees': Forest)
    requires TopsLift(g, s, trees, trees')
    ensures TopsOk(g, trees) && TopsOk(g, trees')
  {
    hide TopsOk, Inside, Above;
  }

  lemma AllInside(g: Layout, trees: Forest, nodes: map<nat, Cached>)
    requires TrueNodes(g, trees, nodes)
    ensures forall p :: p in nodes ==> Inside(g, trees, p)
  {
    hide Inside, Sees, Merkle;
  }

  lemma AllTrueNodes(g: Layout, trees: Forest, nodes: map<nat, Cached>)
    requires forall t: nat :: t in trees ==> t in nodes
    requires forall p: nat :: p in nodes ==>
               Inside(g, trees, p) && nodes[p].hash == Merkle(Sees(g, trees, p)) &&
               (p !in trees ==> !Sees(g, trees, p).Nil?) && (nodes[p].remember ==> Sees(g, trees, p).Leaf?)
    ensures TrueNodes(g, trees, nodes)
  {
    hide Inside, Sees, Merkle;
  }

  lemma AllProvable(g: Layout, trees: Forest, nodes: map<nat, Cached>)
    requires forall y: nat, c {:trigger AtOrAbove(g, y, c)} ::
      c in Remembered(nodes) && AtOrAbove(g, y, c) && Inside(g, trees, y) && y !in trees ==> Sibling(y) in nodes
    ensures Provable(g, trees, nodes)
  {
    hide Inside, AtOrAbove;
  }

  lemma AllAunts(g: Layout, trees: Forest, nodes: map<nat, Cached>)
    requires forall c :: c in nodes && c !in trees && g.Up(c) !in trees ==> Sibling(g.Up(c)) in nodes
    ensures Aunts(g, trees, nodes)
  {
  }
}
