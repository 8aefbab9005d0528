/** A cache and the steps of an addition. */
module MapAdd {
  import opened Hashes
  import opened Positions
  import opened Layouts
  import opened Forests
  import opened Deletion
  import opened Sequential
  import opened MapTheory
  import opened MapLift
  import opened MapForest
  import opened MapMoves
  import opened MapLevels
  import opened MapSteps
  import opened MapRemove
  import opened MapFuse

  /** Nothing is below an empty top. */
  lemma {:induction false} BelowNil(g: Layout, trees: Forest, s: nat, p: nat)
    requires TopsOk(g, trees) && s in trees && trees[s].Nil? && AtOrAbove(g, s, p)
    ensures Sees(g, trees, p).Nil?
    decreases 2 * g.m - p
  {
    hide TopsOk;
    if p != s {
      if p in trees { NoTopAbove(g, trees, s, p); }
      BelowNil(g, trees, s, g.Up(p));
    }
  }

  /** An empty top with its sibling, and a cache. */
  ghost predicate EmptyTop(g: Layout, rows: nat, s: nat, trees: Forest, nodes: map<nat, Cached>) {
    Pair(g, rows, s, trees) && trees[s].Nil? && Keeps(g, trees, nodes)
  }

  lemma {:induction false} EmptyFacts(g: Layout, rows: nat, s: nat, trees: Forest, nodes: map<nat, Cached>)
    requires EmptyTop(g, rows, s, trees, nodes)
    ensures GivesWay(g, rows, s) && s in nodes && nodes[s] == Cached(Empty, false) && Sibling(s) in nodes &&
            g.Up(s) !in nodes
    ensures Starts(g, s, nodes, nodes - {Sibling(s)}) && Vacated(g, s, nodes - {Sibling(s)})
  {
    hide Above, Layout.WellShaped, Layout.IsRoot, Inside, GivesWay, TopsOk, Provable, Aunts;
    PairFacts(g, rows, s, trees);
    forall p: nat | Above(g, s, p)
      ensures p !in nodes
    {
      BelowNil(g, trees, s, p);
      if p in trees { NoTopAbove(g, trees, s, p); }
    }
    assert Sees(g, trees, s) == Nil;
  }

  /** The cache when everything has moved: where the empty top was, a stale entry may be left. */
  ghost function Moved(g: Layout, s: nat, nodes: map<nat, Cached>, moved: map<nat, Cached>): map<nat, Cached>
    requires Sibling(s) in nodes
  {
    moved[g.Up(s) := nodes[Sibling(s)]]
  }

  /** The same without the stale entry. */
  ghost function Fresh(g: Layout, s: nat, nodes: map<nat, Cached>, moved: map<nat, Cached>): map<nat, Cached>
    requires Sibling(s) in nodes
  {
    if CameIn(g, s, nodes - {Sibling(s)}, AllUnder(g, s), s) then Moved(g, s, nodes, moved)
       else Moved(g, s, nodes, moved) - {s}
  }

  lemma {:induction false} EmptyMoves(g: Layout, rows: nat, s: nat, trees: Forest, nodes: map<nat, Cached>,
                                      moved: map<nat, Cached>)
    requires EmptyTop(g, rows, s, trees, nodes) && MovedSet(g, s, nodes - {Sibling(s)}, moved, AllUnder(g, s))
    ensures Sibling(s) in nodes && Moves(g, rows, s, nodes, nodes - {Sibling(s)}, moved, Fresh(g, s, nodes, moved))
  {
    hide Above, Layout.WellShaped, Layout.IsRoot, Inside, EmptyTop, TopsOk, Keeps, CameIn, AllUnder, Shift, Starts;
    EmptyFacts(g, rows, s, trees, nodes);
    var start := nodes - {Sibling(s)};
    MoveFacts(g, rows, s, Sibling(s));
    if CameIn(g, s, start, AllUnder(g, s), s) {
      var p := Origin(g, rows, s, start, s);
      assert Shift(g, s, p) in moved;
    }
  }

  /** An empty top gives way. */
  lemma {:induction false} EmptyKeeps(g: Layout, rows: nat, s: nat, trees: Forest, nodes: map<nat, Cached>,
                                      moved: map<nat, Cached>)
    requires EmptyTop(g, rows, s, trees, nodes) && MovedSet(g, s, nodes - {Sibling(s)}, moved, AllUnder(g, s))
    ensures Sibling(s) in trees && Sibling(s) in nodes &&
            Keeps(g, Fused(g, s, trees, trees[Sibling(s)]), Fresh(g, s, nodes, moved))
  {
    hide Above, Layout.WellShaped, Layout.IsRoot, Inside, Keeps, MovedSet, Moves, Fresh, Fused, TopsLift, NodesLift,
         TreesLift, GivesWay, TopsOk, Sees, AllUnder, Affected;
    EmptyFacts(g, rows, s, trees, nodes);
    var trees', end := Fused(g, s, trees, trees[Sibling(s)]), Fresh(g, s, nodes, moved);
    EmptyLifts(g, rows, s, trees);
    EmptyMoves(g, rows, s, trees, nodes, moved);
    MovesLift(g, rows, s, nodes, nodes - {Sibling(s)}, moved, end);
    NothingAbove(g, rows, s, trees, trees', nodes, end);
    LiftKeeps(g, rows, s, trees, trees', nodes, end);
  }

  /** Above the pair there is nothing in the cache. */
  lemma {:induction false} NothingAbove(g: Layout, rows: nat, s: nat, trees: Forest, trees': Forest,
                                        nodes: map<nat, Cached>, end: map<nat, Cached>)
    requires Pair(g, rows, s, trees) && Keeps(g, trees, nodes) && NodesLift(g, s, nodes, end)
    requires forall p: nat :: !Affected(g, s, p) && p in nodes && p in end ==> end[p] == nodes[p]
    ensures HashesAbove(g, s, trees', end) && SameElsewhere(g, s, nodes, end)
  {
    hide Above, Layout.WellShaped, Layout.IsRoot, Inside, Shift, Sees, TopsOk, Provable, Aunts, GivesWay, Merkle;
    PairFacts(g, rows, s, trees);
    forall p: nat | Above(g, p, g.Up(s))
      ensures p !in end
    {
      AboveNotAffected(g, s, p);
    }
  }

  /** A stale entry is always pruned. */
  lemma {:induction false} StalePruned(g: Layout, rows: nat, s: nat, trees: Forest, nodes: map<nat, Cached>,
                                       full: map<nat, Cached>)
    requires GivesWay(g, rows, s) && Keeps(g, trees, nodes) && Inside(g, trees, s) && s !in trees
    requires nodes == full - {s} && (s in full ==> !full[s].remember)
    ensures Valid(rows, s) && Valid(rows, Sibling(s)) && PrunePosition(rows, full, s) == PrunePosition(rows, nodes, s)
  {
    hide Above, Layout.WellShaped, Layout.IsRoot, Inside, Sees, TopsOk, NiecesPresent, Row, TrueNodes, Pow2;
    InsideUp(g, trees, s);
    NotTop(g, s);
    SiblingBounds(g, s);
    SiblingBack(s);
    var c := Sibling(s);
    ChildrenApart(g, c);
    ChildrenApart(g, s);
    if Remember(nodes, c) {
      assert c in Remembered(nodes);
      ProvableAt(g, trees, nodes, c, c);
    }
    SiblingNoNieces(g, rows, s, trees, nodes);
    NiecesSame(g, rows, s, nodes, full);
    var full1 := if NiecesPresent(rows, full, c) then full else full - {c};
    var nodes1 := if NiecesPresent(rows, nodes, c) then nodes else nodes - {c};
    NiecesSame(g, rows, s, nodes1, full1);
    NoMoreNieces(g, rows, s, nodes, nodes1);
  }

  /** With `s` missing, nothing is below its sibling. */
  lemma {:induction false} SiblingNoNieces(g: Layout, rows: nat, s: nat, trees: Forest, nodes: map<nat, Cached>)
    requires GivesWay(g, rows, s) && Keeps(g, trees, nodes) && Inside(g, trees, s) && s !in trees && s !in nodes
    ensures Valid(rows, s) && Valid(rows, Sibling(s)) && !NiecesPresent(rows, nodes, s)
  {
    hide Above, Layout.WellShaped, Layout.IsRoot, Inside, Sees, TopsOk, TrueNodes, Provable, Row, NiecesPresent;
    InsideUp(g, trees, s);
    NotTop(g, s);
    NiecesAre(g, rows, nodes, s);
    var c := Sibling(s);
    SiblingBack(s);
    if c >= g.m {
      InsideChild(g, trees, c);
      assert g.Up(g.Left(c)) == c && g.Up(g.Right(c)) == c;
    }
  }

  lemma {:induction false} NiecesSame(g: Layout, rows: nat, s: nat, nodes: map<nat, Cached>, full: map<nat, Cached>)
    requires g.m == Pow2(rows) && s < 2 * g.m - 2 && (forall p :: p != s ==> (p in nodes <==> p in full))
    ensures Valid(rows, s) && Valid(rows, Sibling(s)) && Sibling(Sibling(s)) == s
    ensures NiecesPresent(rows, nodes, s) <==> NiecesPresent(rows, full, s)
    ensures NiecesPresent(rows, nodes, Sibling(s)) <==> NiecesPresent(rows, full, Sibling(s))
  {
    hide NiecesPresent, Row, Pow2;
    SiblingBack(s);
    SiblingBounds(g, s);
    NiecesAre(g, rows, nodes, s);
    NiecesAre(g, rows, full, s);
    NiecesAre(g, rows, nodes, Sibling(s));
    NiecesAre(g, rows, full, Sibling(s));
    ChildrenApart(g, s);
    NotChild(g, s);
  }

  lemma NotChild(g: Layout, s: nat)
    requires s < 2 * g.m - 2
    ensures Sibling(s) >= g.m ==> g.Left(Sibling(s)) != s && g.Right(Sibling(s)) != s
  {
  }

  lemma {:induction false} NoMoreNieces(g: Layout, rows: nat, s: nat, nodes: map<nat, Cached>, nodes1: map<nat, Cached>)
    requires g.m == Pow2(rows) && s < 2 * g.m - 2 && (forall p :: p in nodes1 ==> p in nodes)
    ensures Valid(rows, s) && Valid(rows, Sibling(s))
    ensures NiecesPresent(rows, nodes1, s) ==> NiecesPresent(rows, nodes, s)
  {
    hide NiecesPresent, Row, Pow2;
    NiecesAre(g, rows, nodes, s);
    NiecesAre(g, rows, nodes1, s);
  }

  /** Two tops joined: nothing moves. */
  lemma {:induction false} JoinSees(g: Layout, rows: nat, s: nat, trees: Forest, p: nat)
    requires Pair(g, rows, s, trees) && s % 2 == 0 && p != g.Up(s)
    ensures Sees(g, Fused(g, s, trees, Node(trees[s], trees[Sibling(s)])), p) == Sees(g, trees, p)
    decreases 2 * g.m - p
  {
    hide Above, Layout.WellShaped, Layout.IsRoot, TopsOk, Pair;
    PairFacts(g, rows, s, trees);
    PairTops(g, rows, s, trees);
    if p != s && p != Sibling(s) && p !in trees && p < 2 * g.m - 1 {
      if g.Up(p) == g.Up(s) { OnlyChildren(g, s, p); }
      JoinSees(g, rows, s, trees, g.Up(p));
    }
  }

  lemma {:induction false} JoinKeeps(g: Layout, rows: nat, s: nat, trees: Forest, nodes: map<nat, Cached>)
    requires Pair(g, rows, s, trees) && s % 2 == 0 && !trees[s].Nil? && !trees[Sibling(s)].Nil? &&
             Keeps(g, trees, nodes)
    ensures s in nodes && Sibling(s) in nodes
    ensures Keeps(g, Fused(g, s, trees, Node(trees[s], trees[Sibling(s)])),
                  nodes[g.Up(s) := Cached(ParentHash(nodes[s].hash, nodes[Sibling(s)].hash), false)])
  {
    hide Above, Layout.WellShaped, Layout.IsRoot, Inside, TopsOk, Keeps, Pair, GivesWay, Fused, TrueNodes, Provable,
         Aunts;
    var u, c := g.Up(s), Sibling(s);
    PairTops(g, rows, s, trees);
    PairFacts(g, rows, s, trees);
    KeepsParts(g, trees, nodes);
    var x := Node(trees[s], trees[c]);
    var trees' := Fused(g, s, trees, x);
    TopHashes(g, trees, nodes, s);
    TopHashes(g, trees, nodes, c);
    JoinFits(g, rows, s, trees);
    FusedTops(g, rows, s, trees, x);
    var nodes' := nodes[u := Cached(ParentHash(nodes[s].hash, nodes[c].hash), false)];
    JoinTrue(g, rows, s, trees, nodes);
    forall y: nat, d | d in Remembered(nodes') && AtOrAbove(g, y, d) && Inside(g, trees', y) && y !in trees'
      ensures Sibling(y) in nodes'
    {
      JoinSibling(g, rows, s, trees, nodes, y, d);
    }
    AllProvable(g, trees', nodes');
    forall d | d in nodes' && d !in trees' && g.Up(d) !in trees'
      ensures Sibling(g.Up(d)) in nodes'
    {
      JoinAunt(g, rows, s, trees, nodes, d);
    }
    AllAunts(g, trees', nodes');
    KeepsWhole(g, trees', nodes');
  }

  lemma {:induction false} TopHashes(g: Layout, trees: Forest, nodes: map<nat, Cached>, t: nat)
    requires TrueNodes(g, trees, nodes) && t in trees
    ensures t in nodes && nodes[t].hash == Merkle(trees[t])
  {
    hide Inside, Merkle;
    assert Sees(g, trees, t) == trees[t];
  }

  lemma {:induction false} JoinFits(g: Layout, rows: nat, s: nat, trees: Forest)
    requires Pair(g, rows, s, trees) && s % 2 == 0 && !trees[s].Nil? && !trees[Sibling(s)].Nil?
    ensures Fits(g, g.Up(s), Node(trees[s], trees[Sibling(s)])) && Solid(Node(trees[s], trees[Sibling(s)]))
  {
    hide Above, Layout.WellShaped;
    g.NonRootFacts(s);
  }

  lemma {:induction false} JoinTrue(g: Layout, rows: nat, s: nat, trees: Forest, nodes: map<nat, Cached>)
    requires Pair(g, rows, s, trees) && s % 2 == 0 && !trees[s].Nil? && !trees[Sibling(s)].Nil? &&
             TrueNodes(g, trees, nodes)
    ensures s in nodes && Sibling(s) in nodes
    ensures TrueNodes(g, Fused(g, s, trees, Node(trees[s], trees[Sibling(s)])),
                      nodes[g.Up(s) := Cached(ParentHash(nodes[s].hash, nodes[Sibling(s)].hash), false)])
  {
    hide Above, Layout.WellShaped, Layout.IsRoot, Inside, TopsOk, GivesWay;
    var u, c := g.Up(s), Sibling(s);
    PairFacts(g, rows, s, trees);
    TopHashes(g, trees, nodes, s);
    TopHashes(g, trees, nodes, c);
    var trees' := Fused(g, s, trees, Node(trees[s], trees[c]));
    var nodes' := nodes[u := Cached(ParentHash(nodes[s].hash, nodes[c].hash), false)];
    assert Sees(g, trees', u) == Node(trees[s], trees[c]);
    assert Sees(g, trees, s) == trees[s] && Sees(g, trees, c) == trees[c];
    hide Sees;
    forall p: nat
      ensures p != u ==> Sees(g, trees', p) == Sees(g, trees, p)
      ensures Inside(g, trees', p) <==> Inside(g, trees, p) || p == u
    {
      if p != u { JoinSees(g, rows, s, trees, p); }
      FusedInside(g, rows, s, trees, Node(trees[s], trees[c]), p);
    }
    forall p: nat | p in nodes'
      ensures Inside(g, trees', p) && nodes'[p].hash == Merkle(Sees(g, trees', p)) &&
              (p !in trees' ==> !Sees(g, trees', p).Nil?) && (nodes'[p].remember ==> Sees(g, trees', p).Leaf?)
    {
    }
    AllTrueNodes(g, trees', nodes');
  }

  lemma {:induction false} JoinSibling(g: Layout, rows: nat, s: nat, trees: Forest, nodes: map<nat, Cached>, y: nat,
                                       d: nat)
    requires Pair(g, rows, s, trees) && s % 2 == 0 && Provable(g, trees, nodes) && s in nodes && Sibling(s) in nodes
    requires var u, x := g.Up(s), Node(trees[s], trees[Sibling(s)]);
             && d in Remembered(nodes[u := Cached(ParentHash(nodes[s].hash, nodes[Sibling(s)].hash), false)])
             && AtOrAbove(g, y, d) && Inside(g, Fused(g, s, trees, x), y) && y !in Fused(g, s, trees, x)
    ensures Sibling(y) in nodes
  {
    hide Above, Layout.WellShaped, Layout.IsRoot, Inside, TopsOk, GivesWay, Provable;
    PairFacts(g, rows, s, trees);
    FusedInside(g, rows, s, trees, Node(trees[s], trees[Sibling(s)]), y);
    assert d in Remembered(nodes);
    if y != s && y != Sibling(s) { ProvableAt(g, trees, nodes, y, d); }
  }

  lemma {:induction false} JoinAunt(g: Layout, rows: nat, s: nat, trees: Forest, nodes: map<nat, Cached>, d: nat)
    requires Pair(g, rows, s, trees) && s % 2 == 0 && Aunts(g, trees, nodes) && s in nodes && Sibling(s) in nodes
    requires var u, x := g.Up(s), Node(trees[s], trees[Sibling(s)]);
             (d in nodes || d == u) && d !in Fused(g, s, trees, x) && g.Up(d) !in Fused(g, s, trees, x)
    ensures Sibling(g.Up(d)) in nodes
  {
    hide Above, Layout.WellShaped, Layout.IsRoot, Inside, TopsOk, GivesWay, Aunts;
    PairFacts(g, rows, s, trees);
    if g.Up(d) != s && g.Up(d) != Sibling(s) { AuntAt(g, trees, nodes, d); }
  }
}
