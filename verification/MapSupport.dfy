/** What single steps on a cache establish. */
module MapSupport {
  import opened Hashes
  import opened Options
  import opened Positions
  import opened Geometry
  import opened Layouts
  import opened Entries
  import opened Forests
  import opened Deletion
  import opened Sequential
  import opened Navigation
  import opened Inverse
  import opened Shape
  import opened DeTwin
  import opened Relocation
  import opened Slots
  import opened Honest
  import opened Translation
  import opened Pollards
  import opened OneDeletion
  import opened Uniqueness
  import opened UpdateData
  import opened MapTheory
  import opened MapLift
  import opened MapForest
  import opened MapMoves
  import opened MapLevels
  import opened MapSteps
  import opened MapRemove
  import opened MapDeletions

  lemma {:induction false} WayFacts(g: Layout, rows: nat, s: nat)
    requires GivesWay(g, rows, s)
    ensures g.m == Pow2(rows) && Valid(rows, s) && Valid(rows, Sibling(s)) && Row(rows, Sibling(s)) == Row(rows, s)
    ensures g.Up(s) < 2 * g.m - 1 && g.m <= g.Up(s) && g.Up(s) in g.nodes && Sibling(s) in g.nodes
    ensures Sibling(Sibling(s)) == s
  {
    hide Row, Layout.WellShaped, Layout.IsRoot;
    g.NonRootFacts(s);
    g.NodeBound(s);
    NotLast(g, s);
    RowSibling(rows, s);
  }

  lemma RowZeroIff(rows: nat, p: nat)
    requires Valid(rows, p)
    ensures Row(rows, p) == 0 <==> p < Pow2(rows)
  {
  }

  lemma {:induction false} WhereTo(g: Layout, rows: nat, s: nat, p: nat)
    requires GivesWay(g, rows, s) && Valid(rows, p) && Valid(rows, s) && Row(rows, p) <= Row(rows, s)
    ensures CalcNextPosition(p, s, rows).Some?
    ensures Above(g, Sibling(s), p) ==> CalcNextPosition(p, s, rows).value == Shift(g, s, p)
  {
    hide Row, Layout.WellShaped, Layout.IsRoot, Above, Shift, RemoveBit;
    if Above(g, Sibling(s), p) {
      MoveFacts(g, rows, s, p);
      NextIsShift(g, rows, s, p);
    }
  }

  lemma {:induction false} NoneYet(g: Layout, rows: nat, s: nat, done: set<nat>, h: nat)
    requires DoneTo(g, rows, s, done, h)
    ensures forall x: nat :: x in done && Valid(rows, x) ==> Row(rows, x) >= h
  {
    hide Row, Under;
  }

  lemma {:induction false} LevelAt(g: Layout, rows: nat, s: nat, xs: seq<nat>, h: nat, i: nat)
    requires Level(g, rows, s, xs, h) && i < |xs|
    ensures Valid(rows, xs[i]) && Row(rows, xs[i]) == h && (xs[i] < Pow2(rows) <==> h == 0)
  {
    hide Row, AtPair;
    assert xs[i] in xs;
    RowZeroIff(rows, xs[i]);
  }

  lemma SomeDone(g: Layout, rows: nat, s: nat, done: set<nat>, h: nat, xs: seq<nat>, i: nat)
    requires 0 < h && i <= |xs| && DoneSome(g, rows, s, done, h, xs, i)
    ensures Done(g, rows, s, done, h - 1)
  {
    hide Done, Row;
  }

  /** Whether a position is one of a root.  Outside the forest the answer does not matter. */
  predicate IsRootPosition(p: nat, n: nat, rows: nat) {
    Valid(rows, p) && Row(rows, p) <= TreeRows(n) && IsRootPositionOnRowTotalRows(p, n, Row(rows, p), rows)
  }

  lemma {:induction false} IsRootPositionIff(g: Layout, rows: nat, n: nat, p: nat)
    requires LayoutFor(g, rows, n) && p in g.nodes
    ensures Valid(rows, p) && (IsRootPosition(p, n, rows) <==> g.IsRoot(p))
  {
    hide LayoutFor, Row, IsRoot, Layout.WellShaped;
    LayoutFits(g, rows, n);
    g.NodeBound(p);
    LayoutAt(g, rows, n, p);
    RootTest(rows, n, p);
  }

  /** Hashed anew up to a position. */
  ghost predicate RehashedTo(g: Layout, trees: Forest, u: nat, nodes: map<nat, Cached>, nodes': map<nat, Cached>,
                             pos: nat) {
    && nodes'.Keys == nodes.Keys
    && forall p :: p in nodes && p in nodes' ==>
         nodes'[p] == if Above(g, p, u) && p <= pos then Cached(Merkle(Sees(g, trees, p)), false) else nodes[p]
  }

  lemma {:induction false} RehashNone(g: Layout, trees: Forest, u: nat, nodes: map<nat, Cached>)
    ensures RehashedTo(g, trees, u, nodes, nodes, u)
  {
    hide Above, Sees, Merkle;
    forall p: nat | Above(g, p, u)
      ensures p > u
    {
      AboveBounds(g, p, u);
    }
  }

  /** One step up. */
  lemma {:induction false} RehashStep(g: Layout, rows: nat, n: nat, trees: Forest, u: nat, nodes: map<nat, Cached>,
                                      nodes': map<nat, Cached>, pos: nat, row: nat)
    requires LayoutFor(g, rows, n) && ForestOk(g, trees) && AtOrAbove(g, pos, u) && Valid(rows, pos) &&
             Row(rows, pos) == row
    requires PathKnown(g, trees, nodes, u) && (forall p :: p in nodes ==> p in g.nodes) &&
             RehashedTo(g, trees, u, nodes, nodes', pos)
    ensures AtOrAbove(g, g.Up(pos), u)
    ensures row + 1 <= rows ==> Valid(rows, g.Up(pos)) && Row(rows, g.Up(pos)) == row + 1
    ensures row + 1 > rows ==> g.Up(pos) >= 2 * g.m - 1
    ensures g.Up(pos) in g.nodes ==>
              pos in g.nodes && Sibling(pos) in nodes' &&
              var a, b := Merkle(Sees(g, trees, pos)), nodes'[Sibling(pos)].hash;
              Merkle(Sees(g, trees, g.Up(pos))) == if pos % 2 == 0 then ParentHash(a, b) else ParentHash(b, a)
    ensures g.Up(pos) in nodes' ==>
              g.Up(pos) in g.nodes &&
              RehashedTo(g, trees, u, nodes, nodes'[g.Up(pos) := Cached(Merkle(Sees(g, trees, g.Up(pos))), false)],
                         g.Up(pos))
    ensures g.Up(pos) !in nodes' ==> RehashedTo(g, trees, u, nodes, nodes', g.Up(pos))
  {
    hide Row, Above, Sees, Merkle, Pow2, LayoutFor, Layout.IsRoot, PathKnown, Layout.WellShaped, ForestOk;
    LayoutFits(g, rows, n);
    RowUp(rows, pos);
    AboveOf(g, g.Up(pos), pos, u);
    StepsUp(g, pos, u);
    if g.Up(pos) in g.nodes { PathStep(g, trees, u, nodes, nodes', pos); }
  }

  lemma {:induction false} RowUp(rows: nat, p: nat)
    requires Valid(rows, p)
    ensures Row(rows, p) + 1 <= rows ==> Valid(rows, Parent(rows, p)) && Row(rows, Parent(rows, p)) == Row(rows, p) + 1
    ensures Row(rows, p) + 1 > rows ==> Parent(rows, p) >= 2 * Pow2(rows) - 1
  {
    hide Row;
    if p < 2 * Pow2(rows) - 2 { RowStep(rows, p); RowSibling(rows, p); } else { RowUnique(rows, p, rows); }
  }

  /** Between a position on the way up and its parent nothing is on the way. */
  lemma {:induction false} StepsUp(g: Layout, pos: nat, u: nat)
    requires AtOrAbove(g, pos, u) && pos < 2 * g.m - 1
    ensures Above(g, g.Up(pos), u)
    ensures forall p: nat :: Above(g, p, u) && p <= g.Up(pos) ==> p <= pos || p == g.Up(pos)
    ensures pos <= g.Up(pos)
  {
    hide Above;
    AboveOf(g, g.Up(pos), pos, u);
    if g.Up(pos) == u { AboveBounds2(g, pos, u); }
    forall p: nat | Above(g, p, u) && p <= g.Up(pos)
      ensures p <= pos || p == g.Up(pos)
    {
      if p > pos { Chain(g, pos, p, u); AboveParent(g, p, pos); }
    }
  }

  lemma {:induction false} PathStep(g: Layout, trees: Forest, u: nat, nodes: map<nat, Cached>, nodes': map<nat, Cached>,
                                    pos: nat)
    requires ForestOk(g, trees) && AtOrAbove(g, pos, u) && g.Up(pos) in g.nodes && pos < 2 * g.m - 1
    requires PathKnown(g, trees, nodes, u) && RehashedTo(g, trees, u, nodes, nodes', pos)
    ensures pos in g.nodes && Sibling(pos) in nodes'
    ensures var a, b := Merkle(Sees(g, trees, pos)), nodes'[Sibling(pos)].hash;
            Merkle(Sees(g, trees, g.Up(pos))) == if pos % 2 == 0 then ParentHash(a, b) else ParentHash(b, a)
  {
    hide Above, Layout.WellShaped;
    UpNode(g, pos);
    NotRootBelow(g, pos);
    g.NonRootFacts(pos);
    assert pos !in trees && Sibling(pos) !in trees;
    hide Layout.IsRoot;
    NotLast(g, pos);
    BesideTheWay(g, pos, u);
    SeesChildren(g, trees, pos);
  }

  /** Two siblings below an inner node. */
  lemma {:induction false} SeesChildren(g: Layout, trees: Forest, p: nat)
    requires Sees(g, trees, g.Up(p)).Node? && p !in trees && Sibling(p) !in trees && p < 2 * g.m - 2
    ensures var t := Sees(g, trees, g.Up(p));
            if p % 2 == 0 then Sees(g, trees, p) == t.left && Sees(g, trees, Sibling(p)) == t.right
            else Sees(g, trees, p) == t.right && Sees(g, trees, Sibling(p)) == t.left
  {
  }

  lemma {:induction false} RootIsLast(g: Layout, rows: nat, n: nat, trees: Forest, u: nat, nodes: map<nat, Cached>,
                                      nodes': map<nat, Cached>, pos: nat)
    requires LayoutFor(g, rows, n) && AtOrAbove(g, pos, u) && IsRootPosition(pos, n, rows)
    requires forall p :: p in nodes ==> p in g.nodes
    ensures forall p :: p in nodes && Above(g, p, u) ==> p <= pos
  {
    hide Row, Above, Pow2, LayoutFor, Layout.IsRoot, Layout.WellShaped, IsRootPosition;
    LayoutFits(g, rows, n);
    forall p | p in nodes && Above(g, p, u)
      ensures p <= pos
    {
      if p > pos {
        Chain(g, pos, p, u);
        BelowNode(g, p, pos);
        IsRootPositionIff(g, rows, n, pos);
        RootBelow(g, p, pos);
        NotRootBelow(g, pos);
      }
    }
  }

  lemma {:induction false} RehashDone(g: Layout, trees: Forest, u: nat, nodes: map<nat, Cached>,
                                      nodes': map<nat, Cached>, pos: nat)
    requires RehashedTo(g, trees, u, nodes, nodes', pos) && forall p :: p in nodes && Above(g, p, u) ==> p <= pos
    ensures Rehashed(g, trees, u, nodes, nodes')
  {
    hide Above, Sees, Merkle;
  }

  /** Entries have been taken out, but none that is to be remembered. */
  ghost predicate Pruning(nodes: map<nat, Cached>, nodes': map<nat, Cached>) {
    && Remembered(nodes') == Remembered(nodes)
    && forall p :: p in nodes' ==> p in nodes && nodes'[p] == nodes[p]
  }

  lemma PruningNone(nodes: map<nat, Cached>)
    ensures Pruning(nodes, nodes)
  {
  }

  lemma PruningMore(a: map<nat, Cached>, b: map<nat, Cached>, c: map<nat, Cached>)
    requires Pruning(a, b) && Pruning(b, c)
    ensures Pruning(a, c)
  {
    hide Remembered;
  }

  lemma {:induction false} PruneAt(g: Layout, rows: nat, f: Forest, nodes: map<nat, Cached>, cached: map<Hash, nat>,
                                   pos: nat)
    requires g.m == Pow2(rows) && ForestOk(g, f) && Keeps(g, f, nodes) && Linked(nodes, cached) && pos in g.nodes &&
             !g.IsRoot(pos)
    ensures Valid(rows, pos) && Valid(rows, Sibling(pos))
    ensures var after := PrunePosition(rows, nodes, pos);
            Keeps(g, f, after) && Linked(after, cached) && Pruning(nodes, after)
  {
    hide Above, Layout.WellShaped, Keeps, PrunePosition, Remembered;
    InsideIff(g, f, pos);
    PruneKeeps(g, rows, f, nodes, pos);
    LinkedPruned(nodes, PrunePosition(rows, nodes, pos), cached);
  }

  lemma {:induction false} LinkedPruned(nodes: map<nat, Cached>, nodes': map<nat, Cached>, cached: map<Hash, nat>)
    requires Linked(nodes, cached) && Pruning(nodes, nodes')
    ensures Linked(nodes', cached)
  {
    hide IsLeafHash;
    forall h | h in cached
      ensures cached[h] in nodes'
    {
      assert cached[h] in Remembered(nodes);
    }
    LinkedFewer(nodes, nodes', cached);
  }

  lemma {:induction false} ElsewherePruned(g: Layout, d: nat, a: map<nat, Cached>, b: map<nat, Cached>,
                                           c: map<nat, Cached>)
    requires RememberedElsewhere(g, d, a, b) && Pruning(b, c)
    ensures RememberedElsewhere(g, d, a, c)
  {
    hide Area;
    forall p: nat
      ensures Remember(c, p) == Remember(b, p)
    {
      assert p in Remembered(c) <==> p in Remembered(b);
    }
  }

  /** Deleting a root from the cache. */
  lemma {:induction false} RootStep(g: Layout, f: Forest, d: nat, start: map<nat, Cached>, nodes: map<nat, Cached>,
                                    cached: map<Hash, nat>)
    requires AllSolid(g, f) && g.IsRoot(d) && Keeps(g, f, start) && Linked(start, cached) && Uncached(g, cached, d)
    requires nodes == Forgotten(g, start, d)[d := Cached(Empty, false)]
    ensures Keeps(g, Deleted(g, f, {d}), nodes) && Linked(nodes, cached) && RememberedElsewhere(g, d, start, nodes)
  {
    hide Above, Layout.WellShaped, Keeps, Deleted, AllSolid, Layout.IsRoot, IsLeafHash;
    if Above(g, d, d) { AboveBounds(g, d, d); }
    RootDeleted(g, f, d, start, nodes);
    NotCachedEmpty(start, cached);
  }

  /** Before anything moves. */
  lemma {:induction false} DeletedStep(g: Layout, rows: nat, f: Forest, d: nat, start: map<nat, Cached>,
                                       cached: map<Hash, nat>)
    requires AllSolid(g, f) && g.m == Pow2(rows) && g.WellShaped() && d in g.nodes && !g.IsRoot(d) &&
             Keeps(g, f, start) && Linked(start, cached)
    requires Uncached(g, cached, d) && Watched(g, start, d)
    ensures GivesWay(g, rows, d) && Valid(rows, d) && Valid(rows, Sibling(d)) && Sibling(d) in start
    ensures CalcNextPosition(Sibling(d), d, rows) == Some(g.Up(d))
    ensures var taken := Forgotten(g, start, d) - {d};
            var first, cached' := MoveNode(taken, Sibling(d), g.Up(d)), MoveCached(taken, cached, Sibling(d), g.Up(d));
            && Sibling(d) in taken && taken[Sibling(d)] == start[Sibling(d)] && SiblingMoved(g, d, start, first) &&
               Vacated(g, d, first)
            && Linked(first, cached') && cached'.Keys == cached.Keys
  {
    hide Above, Layout.WellShaped, Keeps, AllSolid, Layout.IsRoot, IsLeafHash, Row, Shift, RemoveBit, CalcNextPosition,
         Watched;
    g.NodeBound(d);
    WatchedFacts(g, f, start, d);
    MoveFacts(g, rows, d, Sibling(d));
    g.NodeBound(Sibling(d));
    NextIsShift(g, rows, d, Sibling(d));
    SiblingThere(g, rows, d, start);
    var taken := Forgotten(g, start, d) - {d};
    var first := MoveNode(taken, Sibling(d), g.Up(d));
    RemovalStarts(g, rows, d, start, first);
    LinkedFewer(start, taken, cached);
    ParentUncached(g, f, d, start, cached);
    LinkedMove(taken, cached, Sibling(d), g.Up(d));
  }

  /** The parent of something is not a cached leaf. */
  lemma {:induction false} ParentUncached(g: Layout, f: Forest, d: nat, nodes: map<nat, Cached>, cached: map<Hash, nat>)
    requires AllSolid(g, f) && d in g.nodes && !g.IsRoot(d) && Keeps(g, f, nodes) && Linked(nodes, cached) &&
             Watched(g, nodes, d)
    ensures g.Up(d) in nodes ==> nodes[g.Up(d)].hash !in cached
  {
    hide Above, Layout.WellShaped, AllSolid, Layout.IsRoot, Inside, Sees, Merkle, IsLeafHash, TopsOk, Watched, Provable,
         Aunts, At;
    WatchedFacts(g, f, nodes, d);
    SolidKeys(g, f);
    OkShape(g, f);
    g.NonRootFacts(d);
    UpAbove(g, d);
    NodeAbove(g, f, d, g.Up(d));
    SeesAt(g, f, g.Up(d));
    NotALeafHash(Sees(g, f, g.Up(d)));
  }

  /** After everything has moved. */
  lemma {:induction false} MovedStep(g: Layout, rows: nat, f: Forest, d: nat, start: map<nat, Cached>,
                                     moved: map<nat, Cached>, cached: map<Hash, nat>)
    requires AllSolid(g, f) && GivesWay(g, rows, d) && Keeps(g, f, start) && Watched(g, start, d) && Sibling(d) in start
    requires MovedSet(g, d, MoveNode(Forgotten(g, start, d) - {d}, Sibling(d), g.Up(d)), moved, AllUnder(g, d))
    ensures var f' := Deleted(g, f, {d});
            && ForestOk(g, f') && PathKnown(g, f', moved, g.Up(d)) &&
               start[Sibling(d)].hash == Merkle(Sees(g, f', g.Up(d)))
            && NodesLift(g, d, start, moved)
            && (forall p: nat :: !Affected(g, d, p) && p in start && p in moved ==> moved[p] == start[p])
    ensures g.Up(d) in moved && moved[g.Up(d)] == start[Sibling(d)] && moved[g.Up(d) := start[Sibling(d)]] == moved
    ensures forall p :: p in moved ==> p in g.nodes
  {
    hide Above, Layout.WellShaped, AllSolid, Layout.IsRoot, Inside, Sees, Merkle, Watched, Provable, Aunts, At, Deleted,
         Shift, Forgotten, MovedSet, TreesLift, TopsLift, NodesLift, ForestOk, Keeps;
    var f' := Deleted(g, f, {d});
    var first := MoveNode(Forgotten(g, start, d) - {d}, Sibling(d), g.Up(d));
    WatchedFacts(g, f, start, d);
    DeletionLifts(g, f, rows, d);
    SolidAfter(g, f, d);
    SolidKeys(g, f');
    assert SiblingMoved(g, d, start, first);
    RemovalMoves(g, rows, d, start, first, moved);
    MovesLift(g, rows, d, start, first, moved, moved);
    forall y: nat | AtOrAbove(g, y, g.Up(d)) && y in g.nodes && !g.IsRoot(y)
      ensures Sibling(y) in moved && moved[Sibling(y)].hash == Merkle(Sees(g, f', Sibling(y))) &&
              Sees(g, f', g.Up(y)).Node?
    {
      RemovalPath(g, rows, d, f, f', start, moved, y);
    }
    SiblingHash(g, rows, d, f, f', start);
    SiblingUp(g, rows, d, start, moved);
    forall p | p in moved
      ensures p in g.nodes
    {
      StillNodes(g, rows, d, f, start, moved, p);
    }
  }

  lemma {:induction false} SiblingUp(g: Layout, rows: nat, d: nat, start: map<nat, Cached>, moved: map<nat, Cached>)
    requires GivesWay(g, rows, d) && NodesLift(g, d, start, moved) && Sibling(d) in start
    ensures g.Up(d) in moved && moved[g.Up(d)] == start[Sibling(d)]
  {
    hide Above, Layout.WellShaped, Layout.IsRoot, Shift;
    MoveFacts(g, rows, d, Sibling(d));
  }

  lemma {:induction false} SiblingHash(g: Layout, rows: nat, d: nat, f: Forest, f': Forest, start: map<nat, Cached>)
    requires GivesWay(g, rows, d) && Keeps(g, f, start) && TreesLift(g, d, f, f') && Sibling(d) in start
    ensures start[Sibling(d)].hash == Merkle(Sees(g, f', g.Up(d)))
  {
    hide Above, Layout.WellShaped, Layout.IsRoot, Inside, Sees, Merkle, Provable, Aunts, Shift, TopsOk;
    MoveFacts(g, rows, d, Sibling(d));
  }

  lemma {:induction false} StillNodes(g: Layout, rows: nat, d: nat, f: Forest, start: map<nat, Cached>,
                                      moved: map<nat, Cached>, p: nat)
    requires AllSolid(g, f) && GivesWay(g, rows, d) && Keeps(g, f, start) && NodesLift(g, d, start, moved) && p in moved
    ensures p in g.nodes
  {
    hide Above, Layout.WellShaped, Layout.IsRoot, Inside, Sees, Merkle, Provable, Aunts, Shift, TopsOk, AllSolid,
         ForestOk;
    if Affected(g, d, p) {
      g.NonRootFacts(d);
      BelowNode(g, g.Up(d), p);
    } else {
      SolidKeys(g, f);
      InsideIff(g, f, p);
    }
  }

  /** After hashing anew. */
  lemma {:induction false} HashedStep(g: Layout, rows: nat, f: Forest, d: nat, start: map<nat, Cached>,
                                      moved: map<nat, Cached>, nodes: map<nat, Cached>, cached: map<Hash, nat>)
    requires AllSolid(g, f) && GivesWay(g, rows, d) && Keeps(g, f, start) && Watched(g, start, d) && Sibling(d) in start
    requires NodesLift(g, d, start, moved) && Rehashed(g, Deleted(g, f, {d}), g.Up(d), moved, nodes) &&
             Linked(moved, cached)
    requires forall p: nat :: !Affected(g, d, p) && p in start && p in moved ==> moved[p] == start[p]
    ensures Keeps(g, Deleted(g, f, {d}), nodes) && Linked(nodes, cached) && RememberedElsewhere(g, d, start, nodes)
  {
    hide Above, Layout.WellShaped, AllSolid, Layout.IsRoot, Inside, Sees, Merkle, Watched, Provable, Aunts, At, Deleted,
         Shift, TreesLift, TopsLift, NodesLift, ForestOk, Keeps, TrueNodes, Rehashed, Linked, RememberedElsewhere,
         HashesAbove, SameElsewhere;
    var f' := Deleted(g, f, {d});
    WatchedFacts(g, f, start, d);
    KeepsParts(g, f, start);
    DeletionLifts(g, f, rows, d);
    RehashedLift(g, rows, d, f, f', start, moved, nodes);
    LiftKeeps(g, rows, d, f, f', start, nodes);
    ElsewhereAfter(g, rows, d, f, f', start, nodes);
    forall p | p in moved && Above(g, p, g.Up(d))
      ensures Sees(g, f', p).Node? && !moved[p].remember
    {
      AboveInner(g, rows, d, f, f', start, moved, p);
    }
    LinkedRehashed(g, f', g.Up(d), moved, nodes, cached);
  }

  lemma {:induction false} AboveInner(g: Layout, rows: nat, d: nat, f: Forest, f': Forest, start: map<nat, Cached>,
                                      moved: map<nat, Cached>, p: nat)
    requires TrueNodes(g, f, start) && TreesLift(g, d, f, f') && NodesLift(g, d, start, moved) && p in moved &&
             Above(g, p, g.Up(d))
    ensures Sees(g, f', p).Node? && !moved[p].remember
  {
    hide Above, Inside, Sees, Merkle, Shift;
    AboveNotAffected(g, d, p);
  }

  lemma {:induction false} SortedDels(a: Layout, slots: seq<Hash>, targets: seq<nat>, hashes: set<Hash>)
    requires Deletes(a, slots, targets, hashes)
    ensures LayoutFor(a, TreeRows(|slots|), |slots|)
    ensures Ascending(SortPositions(targets)) && Elems(SortPositions(targets)) == Elems(targets)
    ensures forall p :: p in SortPositions(targets) ==> p in a.nodes
  {
    hide LayoutFor, ForestOf, AllSolid, Deleted, Erase, At, Deletable, Compact, Deletes, Touched, SortPositions;
    DeletesFacts(a, slots, targets, hashes);
    SortPositionsFacts(targets);
    assert forall p :: p in SortPositions(targets) ==> p in Elems(SortPositions(targets));
  }

  /** The deletions of a block, in the rows of the cache. */
  lemma {:induction false} DelsTranslated(a: Layout, g: Layout, from: nat, to: nat, slots: seq<Hash>, targets: seq<nat>,
                                          hashes: set<Hash>, sorted: seq<nat>, dels: seq<nat>)
    requires from == TreeRows(|slots|) && Deletes(a, slots, targets, hashes) && LayoutFor(g, to, |slots|) &&
             GoodSlots(slots)
    requires sorted == SortPositions(targets) && TranslatedList(Translated(a, from, to), sorted, dels)
    ensures Ascending(dels) && Deleting(g, slots, Elems(dels), hashes)
  {
    hide LayoutFor, ForestOf, GoodSlots, SortPositions, LeafPositions, Translated, TranslatedList, Image, SameForest,
         Layout.WellShaped, Elems;
    SortedDels(a, slots, targets, hashes);
    SameForestFor(a, g, |slots|, from, to);
    var t := Translated(a, from, to);
    TranslatedFacts(a, g, t, sorted, dels);
    LeafPositionsSame(a, g, t, slots, Elems(targets), hashes);
    LayoutFits(g, to, |slots|);
  }

  lemma LargestIs(g: Layout, d: set<nat>, ds: seq<nat>)
    requires Separate(g, ds) && forall p: nat :: p in ds <==> Maximal(g, d, p)
    ensures Largest(g, d, ds) && forall i :: 0 <= i < |ds| ==> Gone(g, d, ds[i])
  {
    hide Separate, Gone;
    forall i | 0 <= i < |ds|
      ensures Gone(g, d, ds[i])
    {
      assert ds[i] in ds;
    }
  }

  lemma {:induction false} AllFirst(g: Layout, slots: seq<Hash>, d: set<nat>, hashes: set<Hash>,
                                    nodes: map<nat, Cached>, cached: map<Hash, nat>, ds: seq<nat>)
    requires Deleting(g, slots, d, hashes) && Keeps(g, ForestOf(g, slots), nodes) && Linked(nodes, cached) &&
             hashes <= cached.Keys
    requires forall i :: 0 <= i < |ds| ==> Gone(g, d, ds[i])
    ensures forall i :: 0 <= i < |ds| ==> Watched(g, nodes, ds[i]) && Uncached(g, cached - hashes, ds[i])
  {
    hide Deleting, Keeps, Linked, Gone, Watched, Uncached, ForestOf;
    forall i | 0 <= i < |ds|
      ensures Watched(g, nodes, ds[i]) && Uncached(g, cached - hashes, ds[i])
    {
      FirstFacts(g, slots, d, hashes, nodes, cached, ds[i]);
    }
  }

  /** The entries of a cache are at nodes of the forest. */
  lemma {:induction false} CacheNodes(g: Layout, rows: nat, n: nat, slots: seq<Hash>, nodes: map<nat, Cached>,
                                      cached: map<Hash, nat>)
    requires LayoutFor(g, rows, n) && Keeps(g, ForestOf(g, slots), nodes) && Linked(nodes, cached)
    ensures forall p :: p in nodes ==> p in g.nodes && Valid(rows, p)
    ensures forall h :: h in cached ==> cached[h] in g.nodes
  {
    hide LayoutFor, ForestOf, TopsOk, Provable, Aunts, Inside, Sees, Layout.WellShaped, AllSolid, ForestOk, IsLeafHash;
    LayoutFits(g, rows, n);
    SlotsSolid(g, slots);
    SolidKeys(g, ForestOf(g, slots));
    forall p | p in nodes
      ensures p in g.nodes && Valid(rows, p)
    {
      InsideIff(g, ForestOf(g, slots), p);
      g.NodeBound(p);
    }
  }

  lemma MoveNodeIs(nodes: map<nat, Cached>, from: nat, to: nat)
    ensures MoveNode(nodes, from, to) == if from in nodes then (nodes - {from})[to := nodes[from]] else nodes
  {
  }

  lemma LayoutRoom(rows: nat, n: nat)
    requires n <= Pow2(rows)
    ensures n <= Pow2(rows + 1)
  {
    PowStep(rows + 1);
  }

}
