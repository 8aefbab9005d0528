/** A cache and one deletion. */
module MapRemove {
  import opened Hashes
  import opened Positions
  import opened Layouts
  import opened Forests
  import opened Sequential
  import opened Uniqueness
  import opened OneDeletion
  import opened MapTheory
  import opened MapLift
  import opened MapForest
  import opened MapMoves
  import opened MapLevels
  import opened MapSteps

  /** The cache without what is below a position. */
  ghost function Forgotten(g: Layout, nodes: map<nat, Cached>, pos: nat): map<nat, Cached> {
    map p | p in nodes && !Above(g, pos, p) :: nodes[p]
  }

  lemma {:induction false} BelowIff(g: Layout, a: nat, p: nat)
    ensures g.m <= a < 2 * g.m - 1 ==>
              (Above(g, a, p) <==> AtOrAbove(g, g.Left(a), p) || AtOrAbove(g, g.Right(a), p))
    ensures a < g.m ==> !Above(g, a, p)
  {
    hide Above;
    if g.m <= a < 2 * g.m - 1 {
      if Above(g, a, p) { ChildOnTheWay(g, a, p); }
      UpAboveAny(g, g.Left(a));
      UpAboveAny(g, g.Right(a));
      if Above(g, g.Left(a), p) { AboveOf(g, a, g.Left(a), p); if a == p { AboveBounds(g, g.Left(a), p); } }
      if Above(g, g.Right(a), p) { AboveOf(g, a, g.Right(a), p); if a == p { AboveBounds(g, g.Right(a), p); } }
    } else if Above(g, a, p) {
      AboveBounds(g, a, p);
    }
  }

  lemma {:induction false} ForgottenStep(g: Layout, nodes: map<nat, Cached>, pos: nat)
    ensures pos < g.m ==> Forgotten(g, nodes, pos) == nodes
    ensures g.m <= pos < 2 * g.m - 1 ==>
              Forgotten(g, Forgotten(g, nodes - {g.Left(pos), g.Right(pos)}, g.Left(pos)), g.Right(pos)) ==
                  Forgotten(g, nodes, pos)
  {
    hide Above;
    forall p: nat
      ensures g.m <= pos < 2 * g.m - 1 ==>
                (Above(g, pos, p) <==> AtOrAbove(g, g.Left(pos), p) || AtOrAbove(g, g.Right(pos), p))
      ensures pos < g.m ==> !Above(g, pos, p)
    {
      BelowIff(g, pos, p);
    }
  }

  /** Where a deletion changes the cache, apart from hashes above. */
  ghost predicate Area(g: Layout, d: nat, p: nat) {
    if g.IsRoot(d) then AtOrAbove(g, d, p) else Affected(g, d, p)
  }

  /** What is remembered elsewhere stays. */
  ghost predicate RememberedElsewhere(g: Layout, d: nat, nodes: map<nat, Cached>, nodes': map<nat, Cached>) {
    forall p: nat :: !Area(g, d, p) ==>
          Remember(nodes', p) == Remember(nodes, p) && (Remember(nodes, p) ==> nodes'[p] == nodes[p])
  }

  /** The cache has a remembered leaf at or below a position. */
  ghost predicate Watched(g: Layout, nodes: map<nat, Cached>, d: nat) {
    exists c :: c in Remembered(nodes) && AtOrAbove(g, d, c)
  }

  /** No cached leaf is at or below a position. */
  ghost predicate Uncached(g: Layout, cached: map<Hash, nat>, d: nat) {
    forall h :: h in cached ==> !AtOrAbove(g, d, cached[h])
  }

  /** Something is at a position that is watched, and its sibling is in the cache. */
  lemma {:induction false} WatchedFacts(g: Layout, f: Forest, nodes: map<nat, Cached>, d: nat)
    requires AllSolid(g, f) && Keeps(g, f, nodes) && Watched(g, nodes, d) && d in g.nodes
    ensures !At(g, f, d).Nil?
    ensures !g.IsRoot(d) ==> Sibling(d) in nodes
  {
    hide Layout.WellShaped, Layout.IsRoot, Above, Sees, Inside, TopsOk, Provable, At, ForestOk;
    var c :| c in Remembered(nodes) && AtOrAbove(g, d, c);
    SolidKeys(g, f);
    SeesAt(g, f, c);
    assert Sees(g, f, c).Leaf?;
    OkShape(g, f);
    if c != d { NodeAbove(g, f, c, d); }
    InsideIff(g, f, d);
    if !g.IsRoot(d) { ProvableAt(g, f, nodes, d, c); }
  }

  /** Linked entries stay linked when others are taken out. */
  lemma {:induction false} LinkedFewer(nodes: map<nat, Cached>, nodes': map<nat, Cached>, cached: map<Hash, nat>)
    requires Linked(nodes, cached)
    requires forall p :: p in nodes' ==> p in nodes && nodes'[p] == nodes[p]
    requires forall h :: h in cached ==> cached[h] in nodes'
    ensures Linked(nodes', cached)
  {
    hide IsLeafHash;
  }

  /** The cache when the sibling has taken the place of the parent, but nothing else has moved. */
  ghost predicate SiblingMoved(g: Layout, d: nat, nodes: map<nat, Cached>, start: map<nat, Cached>) {
    && Sibling(d) in nodes
    && start == MoveNode(Forgotten(g, nodes, d) - {d}, Sibling(d), g.Up(d))
  }

  lemma {:induction false} SiblingThere(g: Layout, rows: nat, d: nat, nodes: map<nat, Cached>)
    requires GivesWay(g, rows, d) && Sibling(d) in nodes
    ensures var n2 := Forgotten(g, nodes, d) - {d};
            Sibling(d) in n2 && n2[Sibling(d)] == nodes[Sibling(d)] && g.Up(d) != Sibling(d) && g.Up(d) != d
    ensures !Above(g, d, g.Up(d))
  {
    hide Layout.WellShaped, Layout.IsRoot, Above;
    AffectedIff(g, rows, d, Sibling(d));
    g.NonRootFacts(d);
    if Above(g, d, g.Up(d)) { AboveBounds(g, d, g.Up(d)); }
  }

  lemma {:induction false} RemovalStarts(g: Layout, rows: nat, d: nat, nodes: map<nat, Cached>, start: map<nat, Cached>)
    requires GivesWay(g, rows, d) && SiblingMoved(g, d, nodes, start)
    ensures Sibling(d) in nodes && Starts(g, d, nodes, start) && g.Up(d) in start &&
            start[g.Up(d)] == nodes[Sibling(d)] && d !in start
  {
    hide Layout.WellShaped, Layout.IsRoot, Above, GivesWay;
    SiblingThere(g, rows, d, nodes);
  }

  /** The moves of a deletion. */
  lemma {:induction false} RemovalMoves(g: Layout, rows: nat, d: nat, nodes: map<nat, Cached>, start: map<nat, Cached>,
                                        moved: map<nat, Cached>)
    requires GivesWay(g, rows, d) && SiblingMoved(g, d, nodes, start) && MovedSet(g, d, start, moved, AllUnder(g, d))
    ensures Moves(g, rows, d, nodes, start, moved, moved)
  {
    hide Layout.WellShaped, Layout.IsRoot, Above, CameIn, AllUnder, SiblingMoved, Shift;
    RemovalStarts(g, rows, d, nodes, start);
    var u := g.Up(d);
    AffectedIff(g, rows, d, u);
    NotUnder(g, rows, d);
    if CameIn(g, d, start, AllUnder(g, d), u) { var _ := Origin(g, rows, d, start, u); }
    if CameIn(g, d, start, AllUnder(g, d), d) { var p := Origin(g, rows, d, start, d); assert Shift(g, d, p) in moved; }
  }

  lemma {:induction false} NotUnder(g: Layout, rows: nat, s: nat)
    requires GivesWay(g, rows, s)
    ensures !Under(g, s, g.Up(s))
  {
    hide Layout.WellShaped, Layout.IsRoot, Above;
    g.NonRootFacts(s);
    if Above(g, s, g.Up(s)) { AboveBounds(g, s, g.Up(s)); }
    if Above(g, Sibling(s), g.Up(s)) { AboveBounds(g, Sibling(s), g.Up(s)); }
  }

  /** On the way up from a position, all that is needed for hashing is known. */
  ghost predicate PathKnown(g: Layout, trees: Forest, nodes: map<nat, Cached>, u: nat) {
    forall y: nat :: AtOrAbove(g, y, u) && y in g.nodes && !g.IsRoot(y) ==>
      Sibling(y) in nodes && nodes[Sibling(y)].hash == Merkle(Sees(g, trees, Sibling(y))) &&
          Sees(g, trees, g.Up(y)).Node?
  }

  /** The sibling of what is above a position is not above it. */
  lemma {:induction false} BesideTheWay(g: Layout, y: nat, u: nat)
    requires AtOrAbove(g, y, u) && y < 2 * g.m - 2
    ensures !AtOrAbove(g, Sibling(y), u)
  {
    hide Above;
    var b := Sibling(y);
    if AtOrAbove(g, b, u) {
      SameParent(g, y);
      if y <= b { Chain(g, y, b, u); AboveParent(g, b, y); } else { Chain(g, b, y, u); AboveParent(g, y, b); }
    }
  }

  lemma {:induction false} RemovalPath(g: Layout, rows: nat, d: nat, f: Forest, f': Forest, nodes: map<nat, Cached>,
                                       nodes': map<nat, Cached>, y: nat)
    requires GivesWay(g, rows, d) && AllSolid(g, f) && Keeps(g, f, nodes) && Watched(g, nodes, d)
    requires TreesLift(g, d, f, f') && NodesLift(g, d, nodes, nodes')
    requires forall p: nat :: !Affected(g, d, p) && p in nodes && p in nodes' ==> nodes'[p] == nodes[p]
    requires AtOrAbove(g, y, g.Up(d)) && y in g.nodes && !g.IsRoot(y)
    ensures Sibling(y) in nodes' && nodes'[Sibling(y)].hash == Merkle(Sees(g, f', Sibling(y))) &&
            Sees(g, f', g.Up(y)).Node?
  {
    hide Layout.WellShaped, Layout.IsRoot, Above, Sees, Inside, TopsOk, Provable, Shift, Merkle, ForestOk;
    var u := g.Up(d);
    g.NonRootFacts(d);
    g.NonRootFacts(y);
    var c :| c in Remembered(nodes) && AtOrAbove(g, d, c);
    AboveOf(g, u, d, c);
    AboveFar(g, y, u, c);
    SolidKeys(g, f);
    InsideIff(g, f, y);
    InsideIff(g, f, g.Up(y));
    ProvableAt(g, f, nodes, y, c);
    BesideTheWay(g, y, u);
    SiblingNotAffected(g, rows, d, y);
    AboveOf(g, g.Up(y), y, u);
    if g.Up(y) == u { AboveBounds2(g, y, u); }
    UpNotAffected(g, rows, d, y);
  }

  lemma AboveBounds2(g: Layout, y: nat, u: nat)
    requires AtOrAbove(g, y, u) && y < g.Up(y)
    ensures g.Up(y) != u
  {
    if Above(g, y, u) { AboveBounds(g, y, u); }
  }

  lemma {:induction false} SiblingNotAffected(g: Layout, rows: nat, d: nat, y: nat)
    requires GivesWay(g, rows, d) && AtOrAbove(g, y, g.Up(d)) && y in g.nodes && !g.IsRoot(y)
    ensures !Affected(g, d, Sibling(y))
  {
    hide Layout.WellShaped, Layout.IsRoot, Above;
    var u := g.Up(d);
    g.NonRootFacts(y);
    if AtOrAbove(g, u, Sibling(y)) {
      if y == u {
        SiblingNotBelow(g, rows, d);
      } else {
        g.NonRootFacts(d);
        AboveFar2(g, y, u, Sibling(y));
        AboveParent(g, y, Sibling(y));
      }
    }
  }

  lemma {:induction false} AboveFar2(g: Layout, y: nat, u: nat, p: nat)
    requires Above(g, y, u) && AtOrAbove(g, u, p) && u < 2 * g.m - 1
    ensures Above(g, y, p)
  {
    hide Above;
    AboveFar(g, y, u, p);
    AboveBounds(g, y, u);
    if u != p { AboveBounds(g, u, p); }
  }

  lemma {:induction false} UpNotAffected(g: Layout, rows: nat, d: nat, y: nat)
    requires GivesWay(g, rows, d) && AtOrAbove(g, y, g.Up(d)) && y in g.nodes && !g.IsRoot(y)
    ensures !Affected(g, d, g.Up(y)) && Above(g, g.Up(y), g.Up(d))
  {
    hide Layout.WellShaped, Layout.IsRoot, Above;
    var u := g.Up(d);
    g.NonRootFacts(y);
    g.NonRootFacts(d);
    AboveOf(g, g.Up(y), y, u);
    if Above(g, y, u) { AboveBounds(g, y, u); }
    if Above(g, u, g.Up(y)) { AboveBounds(g, u, g.Up(y)); }
  }

  /** The cache with the hashes on the way up made new. */
  ghost predicate Rehashed(g: Layout, trees: Forest, u: nat, nodes: map<nat, Cached>, nodes': map<nat, Cached>) {
    && nodes'.Keys == nodes.Keys
    && forall p :: p in nodes && p in nodes' ==>
         nodes'[p] == if Above(g, p, u) then Cached(Merkle(Sees(g, trees, p)), false) else nodes[p]
  }

  /** Hashing again does not disturb the move. */
  lemma {:induction false} RehashedLift(g: Layout, rows: nat, d: nat, f: Forest, f': Forest, nodes: map<nat, Cached>,
                                        moved: map<nat, Cached>, nodes': map<nat, Cached>)
    requires GivesWay(g, rows, d) && TrueNodes(g, f, nodes) && TreesLift(g, d, f, f') && NodesLift(g, d, nodes, moved)
    requires forall p: nat :: !Affected(g, d, p) && p in nodes && p in moved ==> moved[p] == nodes[p]
    requires Rehashed(g, f', g.Up(d), moved, nodes')
    ensures NodesLift(g, d, nodes, nodes') && HashesAbove(g, d, f', nodes') && SameElsewhere(g, d, nodes, nodes')
  {
    hide Above, Sees, Inside, Shift, Merkle, GivesWay;
    forall p: nat | Above(g, p, g.Up(d))
      ensures !Affected(g, d, p)
    {
      AboveNotAffected(g, d, p);
    }
    forall p: nat | AtOrAbove(g, Sibling(d), p)
      ensures Affected(g, d, Shift(g, d, p))
    {
      MoveFacts(g, rows, d, p);
    }
  }

  lemma {:induction false} AboveNotAffected(g: Layout, d: nat, p: nat)
    requires Above(g, p, g.Up(d))
    ensures !Affected(g, d, p)
  {
    hide Above;
    AboveBounds(g, p, g.Up(d));
    if Above(g, g.Up(d), p) { AboveBounds(g, g.Up(d), p); }
  }

  /** New hashes of inner nodes are not those of cached leaves. */
  lemma {:induction false} LinkedRehashed(g: Layout, trees: Forest, u: nat, nodes: map<nat, Cached>,
                                          nodes': map<nat, Cached>, cached: map<Hash, nat>)
    requires Linked(nodes, cached) && Rehashed(g, trees, u, nodes, nodes')
    requires forall p :: p in nodes && Above(g, p, u) ==> Sees(g, trees, p).Node? && !nodes[p].remember
    ensures Linked(nodes', cached)
  {
    hide Above, Sees;
    forall p | p in nodes' && Above(g, p, u)
      ensures nodes'[p].hash !in cached
    {
      NotALeafHash(Sees(g, trees, p));
    }
  }

  lemma NotALeafHash(t: Tree)
    requires t.Node?
    ensures !IsLeafHash(Merkle(t))
  {
  }

  /** What was remembered elsewhere is remembered after a deletion. */
  lemma {:induction false} ElsewhereAfter(g: Layout, rows: nat, d: nat, f: Forest, f': Forest, nodes: map<nat, Cached>,
                                          nodes': map<nat, Cached>)
    requires GivesWay(g, rows, d) && AllSolid(g, f) && TrueNodes(g, f, nodes) && TreesLift(g, d, f, f') &&
             NodesLift(g, d, nodes, nodes')
    requires SameElsewhere(g, d, nodes, nodes')
    ensures RememberedElsewhere(g, d, nodes, nodes')
  {
    hide Above, Sees, Inside, Shift, Merkle, AllSolid, Layout.WellShaped, ForestOk, Affected;
  }
}
