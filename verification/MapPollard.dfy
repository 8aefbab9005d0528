/** The cache of positions and hashes as an object. */
module MapPollards {
  import opened Hashes
  import opened Options
  import opened Positions
  import opened Geometry
  import opened Layouts
  import opened Entries
  import opened Forests
  import opened Deletion
  import opened Sequential
  import opened Navigation
  import opened Shape
  import opened DeTwin
  import opened Slots
  import opened Calculation
  import opened Stumps
  import opened StumpState
  import opened Translation
  import opened Pollards
  import opened OneDeletion
  import opened Uniqueness
  import opened MapTheory
  import opened MapLift
  import opened MapForest
  import opened MapMoves
  import opened MapLevels
  import opened MapRemove
  import opened MapDeletions
  import opened MapSupport
  import opened MapRemap
  import opened MapAdd
  import opened MapGrow
  import opened MapCarry
  import opened MapProofs
  import opened MapUse
  import opened MapLean
  import opened MapLeanSteps
  import opened MapFlags
  import opened MapContents
  import opened Proving
  import opened ProofPositions
  import opened Growth

  class MapPollard {
    var cachedLeaves: map<Hash, nat>
    var nodes: map<nat, Cached>
    var numLeaves: nat
    var totalRows: nat

    constructor (rows: nat)
      ensures Represents([]) && Tidy([], {}) && cachedLeaves == map[] && nodes == map[] && totalRows == rows
    {
      cachedLeaves, nodes, numLeaves, totalRows := map[], map[], 0, rows;
      NothingKept(rows);
    }

    /** The cache stands for the slots: all its hashes are right, the cached leaves are where it says and are the
        entries to be remembered, and for each of them the hashes needed to prove it are there. */
    ghost predicate Represents(slots: seq<Hash>)
      reads this
    {
      && numLeaves == |slots| <= Pow2(totalRows)
      && Keeps(LayoutOf(totalRows, numLeaves), ForestOf(LayoutOf(totalRows, numLeaves), slots), nodes)
      && Linked(nodes, cachedLeaves) && Flags(nodes, cachedLeaves)
    }

    /** Below the roots every entry is needed, but for those on the ways up from the cached leaves with some hashes. */
    ghost predicate Tidy(slots: seq<Hash>, hashes: set<Hash>)
      reads this
    {
      var g := LayoutOf(totalRows, numLeaves);
      Lean(g, ForestOf(g, slots), nodes, Ways(g, Places(cachedLeaves, hashes)))
    }

    /** Move the left or the right child of the sibling of a position up, if it is in the cache. */
    method MoveUpChild(position: nat, delPos: nat, right: bool) returns (c: nat)
      requires Pow2(totalRows) <= Sibling(position) && Valid(totalRows, Sibling(position)) && Valid(totalRows, delPos)
      requires var p := Sibling(position);
               var x := if right then RightChild(totalRows, p) else LeftChild(totalRows, p);
               Valid(totalRows, x) && Row(totalRows, x) <= Row(totalRows, delPos)
      modifies this`nodes, this`cachedLeaves
      ensures c == if right then RightChild(totalRows, Sibling(position)) else LeftChild(totalRows, Sibling(position))
      ensures Valid(totalRows, c) && CalcNextPosition(c, delPos, totalRows).Some?
      ensures nodes == MoveNode(old(nodes), c, CalcNextPosition(c, delPos, totalRows).value)
      ensures cachedLeaves == MoveCached(old(nodes), old(cachedLeaves), c, CalcNextPosition(c, delPos, totalRows).value)
    {
      hide Row, RemoveBit;
      c := if right then RightChild(totalRows, Sibling(position)) else LeftChild(totalRows, Sibling(position));
      var nextPos := CalcNextPosition(c, delPos, totalRows).value;
      if c in nodes {
        var leaf := nodes[c];
        nodes := (nodes - {c})[nextPos := leaf];
        if leaf.hash in cachedLeaves {
          cachedLeaves := cachedLeaves[leaf.hash := nextPos];
        }
      }
    }

    /** Move the children of a position up. */
    method MoveUpNieces(position: nat, delPos: nat, ghost g: Layout, ghost start: map<nat, Cached>,
                        ghost done: set<nat>, ghost top: Cached)
      returns (moved: seq<nat>)
      requires GivesWay(g, totalRows, delPos) && Vacated(g, delPos, start) && Valid(totalRows, delPos) &&
               Valid(totalRows, position)
      requires MovedSet(g, delPos, start, nodes, done) && Linked(nodes[g.Up(delPos) := top], cachedLeaves)
      requires position >= g.m ==>
        var l, r, h := g.Left(position), g.Right(position), Row(totalRows, position) - 1;
        && Row(totalRows, position) > 0 && Done(g, totalRows, delPos, done, h) && l !in done && r !in done
        && Valid(totalRows, l) && Valid(totalRows, r) && Row(totalRows, l) == h == Row(totalRows, r) &&
           h <= Row(totalRows, delPos)
        && Under(g, delPos, l) && Under(g, delPos, r)
      modifies this`nodes, this`cachedLeaves
      ensures position < g.m ==> moved == [] && nodes == old(nodes) && cachedLeaves == old(cachedLeaves)
      ensures position >= g.m ==> moved == [g.Left(position), g.Right(position)] &&
                                  MovedSet(g, delPos, start, nodes, done + {g.Left(position)} + {g.Right(position)})
      ensures Linked(nodes[g.Up(delPos) := top], cachedLeaves) && cachedLeaves.Keys == old(cachedLeaves).Keys
    {
      hide Row, RemoveBit, Above, Layout.WellShaped, Layout.IsRoot, Linked, MovedSet, Vacated, Done, MoveNode,
           MoveCached, Shift, CalcNextPosition, Pow2, GivesWay;
      WayFacts(g, totalRows, delPos);
      RowZeroIff(totalRows, position);
      if Row(totalRows, position) == 0 {
        return [];
      }
      SiblingBack(position);
      ghost var nodes0, cached0 := nodes, cachedLeaves;
      ghost var h: nat := Row(totalRows, position) - 1;
      ghost var left, right := g.Left(position), g.Right(position);
      var l := MoveUpChild(Sibling(position), delPos, false);
      WhereTo(g, totalRows, delPos, l);
      StepUp(g, totalRows, delPos, start, nodes0, cached0, done, h, left, CalcNextPosition(l, delPos, totalRows).value,
             top);
      nodes0, cached0 := nodes, cachedLeaves;
      var r := MoveUpChild(Sibling(position), delPos, true);
      WhereTo(g, totalRows, delPos, r);
      StepUp(g, totalRows, delPos, start, nodes0, cached0, done + {left}, h, right,
             CalcNextPosition(r, delPos, totalRows).value, top);
      moved := [l, r];
    }

    /** Move everything below a position up by one row, one row after another.  The entry `top` for the parent
        may be there already, or be added later. */
    method MoveUpDescendants(position: nat, delPos: nat, ghost g: Layout, ghost top: Cached)
      requires GivesWay(g, totalRows, delPos) && position == Sibling(delPos)
      requires Vacated(g, delPos, nodes) && Linked(nodes[g.Up(delPos) := top], cachedLeaves)
      modifies this`nodes, this`cachedLeaves
      ensures MovedSet(g, delPos, old(nodes), nodes, AllUnder(g, delPos))
      ensures Linked(nodes[g.Up(delPos) := top], cachedLeaves) && cachedLeaves.Keys == old(cachedLeaves).Keys
    {
      hide Row, Above, Layout.WellShaped, Layout.IsRoot, Linked, MovedSet, Vacated, Shift, Done, DoneTo, DoneSome,
           Level, AllUnder, Under, AtPair, SortPositions, Pow2, GivesWay;
      ghost var start := nodes;
      ghost var done: set<nat> := {};
      WayFacts(g, totalRows, delPos);
      FirstLevel(g, totalRows, delPos);
      MovedNone(g, delPos, nodes);
      var row := Row(totalRows, position);
      if row == 0 {
        DoneAll(g, totalRows, delPos, done);
        return;
      }
      var toMoveUp := SortPositions([position, delPos]);
      var h: int := row;
      while h >= 0
        invariant -1 <= h <= row
        invariant h >= 0 ==> Level(g, totalRows, delPos, toMoveUp, h) && DoneTo(g, totalRows, delPos, done, h)
        invariant h < 0 ==> DoneTo(g, totalRows, delPos, done, 0)
        invariant MovedSet(g, delPos, start, nodes, done) && Linked(nodes[g.Up(delPos) := top], cachedLeaves) &&
                  cachedLeaves.Keys == old(cachedLeaves).Keys
      {
        var next: seq<nat> := [];
        ghost var before := done;
        if h > 0 { BeginLevel(g, totalRows, delPos, done, h, toMoveUp); }
        NoneYet(g, totalRows, delPos, done, h);
        for i := 0 to |toMoveUp|
          invariant h > 0 ==> DoneSome(g, totalRows, delPos, done, h, toMoveUp, i)
          invariant h > 0 ==> forall x: nat :: x in next <==>
                      Valid(totalRows, x) && Row(totalRows, x) == h - 1 && x in done
          invariant h == 0 ==> done == before
          invariant Ascending(next)
          invariant MovedSet(g, delPos, start, nodes, done) && Linked(nodes[g.Up(delPos) := top], cachedLeaves) &&
                    cachedLeaves.Keys == old(cachedLeaves).Keys
        {
          LevelAt(g, totalRows, delPos, toMoveUp, h, i);
          if h > 0 {
            ChildrenDone(g, totalRows, delPos, done, h, toMoveUp, i);
            SomeDone(g, totalRows, delPos, done, h, toMoveUp, i);
          }
          var nextChildren := MoveUpNieces(toMoveUp[i], delPos, g, start, done, top);
          if h > 0 { done := done + {g.Left(toMoveUp[i])} + {g.Right(toMoveUp[i])}; }
          next := MergeAscending(next, nextChildren);
        }
        if h > 0 { EndLevel(g, totalRows, delPos, done, h, toMoveUp, next); }
        toMoveUp := next;
        h := h - 1;
      }
      DoneAll(g, totalRows, delPos, done);
    }

    /** Forget everything below a position. */
    method ForgetBelow(position: nat, ghost g: Layout)
      requires g.m == Pow2(totalRows) && Valid(totalRows, position)
      modifies this`nodes
      ensures nodes == Forgotten(g, old(nodes), position)
      decreases position
    {
      hide Row, Above, Forgotten, Pow2;
      RowZeroIff(totalRows, position);
      ForgottenStep(g, nodes, position);
      if Row(totalRows, position) == 0 {
        return;
      }
      var l := LeftChild(totalRows, position);
      var r := Sibling(l);
      nodes := nodes - {l, r};
      ForgetBelow(l, g);
      ForgetBelow(r, g);
    }

    /** Hash anew on the way up from the parent of a position. */
    method UpdateHashes(position: nat, hash: Hash, ghost g: Layout, ghost trees: Forest)
      requires LayoutFor(g, totalRows, numLeaves) && ForestOk(g, trees) && position in g.nodes && !g.IsRoot(position)
      requires hash == Merkle(Sees(g, trees, g.Up(position))) && PathKnown(g, trees, nodes, g.Up(position))
      requires forall p :: p in nodes ==> p in g.nodes
      modifies this`nodes
      ensures Rehashed(g, trees, g.Up(position), old(nodes), nodes)
    {
      hide Row, Above, Sees, Merkle, Pow2, LayoutFor, Layout.IsRoot, PathKnown, Layout.WellShaped, ForestOk, RehashedTo,
           Rehashed, IsRootPosition;
      LayoutFits(g, totalRows, numLeaves);
      g.NonRootFacts(position);
      ghost var u := g.Up(position);
      RehashNone(g, trees, u, nodes);
      var node, pos: nat := Cached(hash, false), Parent(totalRows, position);
      RowBounds(totalRows, pos);
      var row := Row(totalRows, pos);
      while row <= totalRows
        invariant row <= totalRows + 1 && AtOrAbove(g, pos, u)
        invariant row <= totalRows ==> Valid(totalRows, pos) && Row(totalRows, pos) == row
        invariant row > totalRows ==> pos >= 2 * g.m - 1
        invariant !node.remember && (pos in g.nodes ==> node.hash == Merkle(Sees(g, trees, pos)))
        invariant RehashedTo(g, trees, u, old(nodes), nodes, pos)
      {
        var sibPos := Sibling(pos);
        var sibHash := if sibPos in nodes then nodes[sibPos].hash else Empty;
        ghost var below := pos;
        node := Cached(if pos % 2 == 0 then ParentHash(node.hash, sibHash) else ParentHash(sibHash, node.hash), false);
        pos := Parent(totalRows, pos);
        RehashStep(g, totalRows, numLeaves, trees, u, old(nodes), nodes, below, row);
        if pos in nodes {
          nodes := nodes[pos := node];
        }
        if IsRootPosition(pos, numLeaves, totalRows) {
          RootIsLast(g, totalRows, numLeaves, trees, u, old(nodes), nodes, pos);
          break;
        }
        row := row + 1;
      }
      RehashDone(g, trees, u, old(nodes), nodes, pos);
    }

    /** Forget a position and its sibling, unless they are needed. */
    method Prune(pos: nat)
      requires Valid(totalRows, pos) && Valid(totalRows, Sibling(pos))
      modifies this`nodes
      ensures nodes == PrunePosition(totalRows, old(nodes), pos)
    {
      hide Row;
      SiblingBack(pos);
      if !Remember(nodes, pos) && !Remember(nodes, Sibling(pos)) {
        if !NiecesPresent(totalRows, nodes, Sibling(pos)) {
          nodes := nodes - {Sibling(pos)};
        }
        if !NiecesPresent(totalRows, nodes, pos) {
          nodes := nodes - {pos};
        }
      }
    }

    /** Forget what is no longer needed on the way up from a deleted position. */
    method ForgetUnneededDel(del: nat, ghost g: Layout, ghost f: Forest, ghost but: set<nat>)
      requires LayoutFor(g, totalRows, numLeaves) && ForestOk(g, f) && del in g.nodes
      requires Keeps(g, f, nodes) && Linked(nodes, cachedLeaves)
      modifies this`nodes
      ensures Keeps(g, f, nodes) && Linked(nodes, cachedLeaves) && Pruning(old(nodes), nodes)
      ensures !g.IsRoot(del) && Lean(g, f, old(nodes), but + Way(g, g.Up(del))) ==> Lean(g, f, nodes, but)
    {
      hide Row, Above, Pow2, LayoutFor, Layout.IsRoot, Layout.WellShaped, ForestOk, Keeps, Linked, PrunePosition,
           IsRootPosition, Pruning, Lean, Way;
      LayoutFits(g, totalRows, numLeaves);
      PruningNone(nodes);
      IsRootPositionIff(g, totalRows, numLeaves, del);
      if IsRootPosition(del, numLeaves, totalRows) {
        return;
      }
      var parentPos := del;
      var row := Row(totalRows, del);
      RowBounds(totalRows, del);
      ghost var lean := Lean(g, f, nodes, but + Way(g, g.Up(del)));
      while row <= totalRows
        invariant parentPos in g.nodes && !g.IsRoot(parentPos) && Valid(totalRows, parentPos)
        invariant row == Row(totalRows, parentPos) <= totalRows
        invariant Keeps(g, f, nodes) && Linked(nodes, cachedLeaves) && Pruning(old(nodes), nodes)
        invariant lean ==> Lean(g, f, nodes, but + Way(g, g.Up(parentPos)))
        decreases totalRows - row
      {
        UpARow(g, totalRows, parentPos);
        parentPos := Parent(totalRows, parentPos);
        IsRootPositionIff(g, totalRows, numLeaves, parentPos);
        if IsRootPosition(parentPos, numLeaves, totalRows) {
          if lean { LeanAtRoot(g, f, nodes, parentPos, but); }
          return;
        }
        ghost var before := nodes;
        PruneAt(g, totalRows, f, nodes, cachedLeaves, parentPos);
        if lean { PruneLeanAt(g, totalRows, f, nodes, parentPos, but); }
        Prune(parentPos);
        PruningMore(old(nodes), before, nodes);
        row := row + 1;
      }
    }

    /** Remove one position with what is below it. */
    method RemoveSingle(del: nat, ghost g: Layout, ghost f: Forest, ghost but: set<nat>)
      requires LayoutFor(g, totalRows, numLeaves) && AllSolid(g, f) && del in g.nodes
      requires Keeps(g, f, nodes) && Linked(nodes, cachedLeaves) && Watched(g, nodes, del) &&
               Uncached(g, cachedLeaves, del)
      modifies this`nodes, this`cachedLeaves
      ensures Keeps(g, Deleted(g, f, {del}), nodes) && Linked(nodes, cachedLeaves) &&
              cachedLeaves.Keys == old(cachedLeaves).Keys
      ensures RememberedElsewhere(g, del, old(nodes), nodes) && FlagsFrom(g, del, old(nodes), nodes)
      ensures Lean(g, f, old(nodes), but + Around(g, del)) &&
              (!g.IsRoot(del) ==> forall p :: p in but ==> !Above(g, g.Up(del), p)) ==>
                Lean(g, Deleted(g, f, {del}), nodes, but)
    {
      hide Row, Above, Pow2, LayoutFor, Layout.IsRoot, Layout.WellShaped, ForestOk, AllSolid, Keeps, Linked,
           IsRootPosition, Deleted, Watched, Uncached, RememberedElsewhere, RootEmptied, SiblingMoved, Forgotten,
           AllUnder, MovedSet, Vacated, Rehashed, PathKnown, Merkle, Sees, GivesWay, CalcNextPosition, Pruning, Lean,
           Around, Way, FlagsFrom;
      ghost var start, cached := nodes, cachedLeaves;
      ghost var lean := Lean(g, f, nodes, but + Around(g, del)) &&
                        (!g.IsRoot(del) ==> forall p :: p in but ==> !Above(g, g.Up(del), p));
      LayoutFits(g, totalRows, numLeaves);
      IsRootPositionIff(g, totalRows, numLeaves, del);
      WatchedFacts(g, f, nodes, del);
      ForgetBelow(del, g);
      if IsRootPosition(del, numLeaves, totalRows) {
        nodes := nodes[del := Cached(Empty, false)];
        RootStep(g, f, del, start, nodes, cachedLeaves);
        if lean { RootStepLean(g, f, del, start, nodes, but); }
        RootFlags(g, del, start, nodes);
        return;
      }
      ghost var f', u := Deleted(g, f, {del}), g.Up(del);
      DeletedStep(g, totalRows, f, del, start, cachedLeaves);
      nodes := nodes - {del};
      var hash := Empty;
      if Sibling(del) in nodes {
        var node := nodes[Sibling(del)];
        hash := node.hash;
        ghost var taken := nodes;
        nodes := (nodes - {Sibling(del)})[Parent(totalRows, del) := node];
        if node.hash in cachedLeaves {
          cachedLeaves := cachedLeaves[node.hash := CalcNextPosition(Sibling(del), del, totalRows).value];
        }
        assert nodes == MoveNode(taken, Sibling(del), u) && cachedLeaves == MoveCached(taken, cached, Sibling(del), u);
        assert nodes[u := node] == nodes;
        MoveUpDescendants(Sibling(del), del, g, node);
      }
      ghost var moved := nodes;
      MovedStep(g, totalRows, f, del, start, moved, cachedLeaves);
      UpdateHashes(del, hash, g, f');
      HashedStep(g, totalRows, f, del, start, moved, nodes, cachedLeaves);
      ghost var hashed := nodes;
      if lean { RemovalLean(g, totalRows, f, del, start, moved, hashed, but); }
      LiftFlags(g, totalRows, del, f', start, moved, hashed);
      ForgetUnneededDel(del, g, f', but);
      ElsewherePruned(g, del, start, hashed, nodes);
      PrunedFlags(g, del, start, hashed, nodes);
    }

    /** Whether all the hashes are cached. */
    method AreCached(hashes: seq<Hash>) returns (r: bool)
      ensures r <==> HashSet(hashes) <= cachedLeaves.Keys
    {
      for i := 0 to |hashes|
        invariant forall j :: 0 <= j < i ==> hashes[j] in cachedLeaves
      {
        if hashes[i] !in cachedLeaves {
          assert hashes[i] in HashSet(hashes);
          return false;
        }
      }
      return true;
    }

    method UncacheLeaves(dels: seq<Hash>)
      modifies this`cachedLeaves
      ensures cachedLeaves == old(cachedLeaves) - HashSet(dels)
    {
      for i := 0 to |dels|
        invariant cachedLeaves == old(cachedLeaves) - HashSet(dels[..i])
      {
        assert dels[..i + 1] == dels[..i] + [dels[i]];
        cachedLeaves := cachedLeaves - {dels[i]};
      }
      assert dels[..|dels|] == dels;
    }

    /** Delete leaves, if all of them are cached. */
    method Remove(proof: Proof, delHashes: seq<Hash>, ghost slots: seq<Hash>) returns (ok: bool)
      requires Represents(slots) && GoodSlots(slots) &&
               Deletes(ShapeOf(|slots|), slots, proof.targets, HashSet(delHashes))
      modifies this`nodes, this`cachedLeaves
      ensures ok <==> HashSet(delHashes) <= old(cachedLeaves).Keys
      ensures !ok ==> nodes == old(nodes) && cachedLeaves == old(cachedLeaves)
      ensures ok ==>
                Represents(Erase(slots, HashSet(delHashes))) &&
                cachedLeaves.Keys == old(cachedLeaves).Keys - HashSet(delHashes)
      ensures ok && old(Tidy(slots, HashSet(delHashes))) ==> Tidy(Erase(slots, HashSet(delHashes)), {})
    {
      hide Row, Above, Pow2, LayoutFor, Layout.IsRoot, Layout.WellShaped, ForestOk, AllSolid, Keeps, Linked, Deleted,
           Watched, Uncached, RememberedElsewhere, ForestOf, Erase, GoodSlots, Deletes, SortPositions, Separate,
           DeletedInTurn, LayoutOf, ShapeOf, TreeRows, Maximal, Deleting, HashSet, Translated, TranslatedList, Image,
           Elems, Lean, Ways, Places, AroundFrom, Around, Flags, FlagsFrom, FlagsBut;
      ghost var tidy := Tidy(slots, HashSet(delHashes));
      ok := AreCached(delHashes);
      if !ok {
        return;
      }
      ghost var cached := cachedLeaves;
      UncacheLeaves(delHashes);
      ghost var g, a := LayoutOf(totalRows, numLeaves), ShapeOf(numLeaves);
      var rows := TreeRows(numLeaves);
      ghost var f, hashes := ForestOf(g, slots), HashSet(delHashes);
      LayoutOfFacts(totalRows, numLeaves);
      var dels := SortPositions(proof.targets);
      ghost var sorted := dels;
      SortedDels(a, slots, proof.targets, hashes);
      if totalRows != rows {
        dels := TranslatePositions(dels, numLeaves, rows, totalRows, a, g);
      } else {
        TranslatedSame(a, g, numLeaves, rows, totalRows, dels);
      }
      DelsTranslated(a, g, rows, totalRows, slots, proof.targets, hashes, sorted, dels);
      ghost var d := Elems(dels);
      DeletingFacts(g, slots, d, hashes);
      LayoutFits(g, totalRows, numLeaves);
      var ds := DeTwin.DeTwin(dels, totalRows, g);
      LargestIs(g, d, ds);
      SeparateNodes(g, ds);
      LinkedUncached(nodes, cached, hashes);
      AllFirst(g, slots, d, hashes, nodes, cached, ds);
      InTurnNone(g, f);
      assert ds[..0] == [];
      if tidy { LeanAround(g, slots, d, hashes, nodes, cached, ds); }
      FlagsFirst(g, slots, d, hashes, nodes, cached, ds);
      for i := 0 to |ds|
        invariant Keeps(g, DeletedInTurn(g, f, ds[..i]), nodes) && Linked(nodes, cachedLeaves) &&
                  cachedLeaves.Keys == cached.Keys - hashes
        invariant tidy ==> Lean(g, DeletedInTurn(g, f, ds[..i]), nodes, AroundFrom(g, ds, i))
        invariant FlagsBut(g, nodes, cachedLeaves, ds, i)
        invariant forall j :: i <= j < |ds| ==> Watched(g, nodes, ds[j]) && Uncached(g, cachedLeaves, ds[j])
      {
        InTurnSolid(g, f, ds, i);
        InTurnLast(g, f, ds, i);
        ghost var nodes0, cached0 := nodes, cachedLeaves;
        AroundNext(g, ds, i);
        AllClear(g, ds, i);
        RemoveSingle(ds[i], g, DeletedInTurn(g, f, ds[..i]), AroundFrom(g, ds, i + 1));
        FlagsNext(g, ds, i, nodes0, nodes, cached0, cachedLeaves);
        forall j | i + 1 <= j < |ds|
          ensures Watched(g, nodes, ds[j]) && Uncached(g, cachedLeaves, ds[j])
        {
          StillWatched(g, ds, i, j, nodes0, nodes);
          StillUncached(g, ds, i, j, nodes0, nodes, cached0, cachedLeaves);
        }
      }
      assert ds[..|ds|] == ds;
      LargestInTurn(g, f, d, ds);
      EraseCount(slots, hashes);
      AroundNone(g, ds);
      FlagsDone(g, nodes, cachedLeaves, ds);
      NoWays(g, cachedLeaves);
    }

    /** Renumber the cache when one more leaf needs another row. */
    method Remap(ghost slots: seq<Hash>) returns (rows: nat)
      requires Represents(slots)
      modifies this`nodes, this`cachedLeaves, this`totalRows
      ensures Represents(slots) && rows == totalRows && |slots| + 1 <= Pow2(totalRows) &&
              cachedLeaves.Keys == old(cachedLeaves).Keys
      ensures totalRows == MoreRows(old(totalRows), |slots| + 1)
      ensures old(Tidy(slots, {})) ==> Tidy(slots, {})
    {
      hide Flags, Lean, Ways, Places, Row, Pow2, Keeps, Linked, RemappedTo, Remapped, LayoutFor, LayoutOf, ForestOf,
           Start, MaxPositionAtRow, TreeRows, NewNumber, Translated, SameForest, MoveNode;
      ghost var was := nodes;
      ghost var a := LayoutOf(totalRows, numLeaves);
      LayoutOfFacts(totalRows, numLeaves);
      var nextRows := TreeRows(numLeaves + 1);
      if nextRows <= totalRows {
        PowMono(nextRows, totalRows);
        return totalRows;
      }
      FullForest(numLeaves, totalRows);
      RowEdges(totalRows);
      CacheNodes(a, totalRows, numLeaves, slots, nodes, cachedLeaves);
      RemapStart(totalRows, nodes);
      for h := 1 to totalRows + 1
        invariant totalRows == old(totalRows) && cachedLeaves == old(cachedLeaves)
        invariant RemappedTo(totalRows, was, nodes, Start(totalRows, h))
      {
        FullRow(totalRows, h);
        var startPos, maxPos := Start(totalRows, h), MaxPositionAtRow(h, totalRows, numLeaves);
        var i, j := startPos, Start(nextRows, h);
        while i <= maxPos
          invariant totalRows == old(totalRows) && cachedLeaves == old(cachedLeaves)
          invariant startPos <= i <= maxPos + 1 && j == i - startPos + Start(nextRows, h)
          invariant RemappedTo(totalRows, was, nodes, i)
        {
          NextNumber(totalRows, h, i);
          RemapStep(totalRows, was, nodes, i);
          MoveNodeIs(nodes, i, j);
          if i in nodes {
            nodes := (nodes - {i})[j := nodes[i]];
          }
          i, j := i + 1, j + 1;
        }
      }
      ghost var b, t := LayoutOf(nextRows, numLeaves), Translated(a, totalRows, nextRows);
      LayoutRoom(totalRows, numLeaves);
      LayoutOfFacts(nextRows, numLeaves);
      RemapEnd(a, b, numLeaves, totalRows, was, nodes);
      SameForestFor(a, b, numLeaves, totalRows, nextRows);
      TranslatedKeys(a, totalRows, nextRows);
      ghost var done := nodes;
      var todo := cachedLeaves.Keys;
      while todo != {}
        invariant totalRows == old(totalRows) && nodes == done
        invariant todo <= cachedLeaves.Keys && cachedLeaves.Keys == old(cachedLeaves).Keys
        invariant forall h :: h in cachedLeaves && h in todo ==> cachedLeaves[h] == old(cachedLeaves)[h]
        invariant forall h :: h in cachedLeaves && h !in todo ==> cachedLeaves[h] == t[old(cachedLeaves)[h]]
        decreases todo
      {
        var k :| k in todo;
        TranslatedAt(a, b, numLeaves, totalRows, nextRows, cachedLeaves[k]);
        cachedLeaves := cachedLeaves[k := TranslatePos(cachedLeaves[k], totalRows, nextRows)];
        todo := todo - {k};
      }
      RemapKeeps(a, b, t, slots, was, nodes);
      RemapLinked(a, b, t, was, nodes, old(cachedLeaves), cachedLeaves);
      NoWays(a, old(cachedLeaves));
      NoWays(b, cachedLeaves);
      if old(Tidy(slots, {})) { RemapLean(a, b, t, slots, was, nodes); }
      RemapFlags(a, b, t, was, nodes, old(cachedLeaves), cachedLeaves);
      totalRows := nextRows;
      return nextRows;
    }

    /** Forget the children of a position, unless they are needed. */
    method PruneNieces(pos: nat)
      requires Valid(totalRows, pos) && (pos >= Pow2(totalRows) ==>
                 Valid(totalRows, LeftChild(totalRows, pos)) && Valid(totalRows, Sibling(LeftChild(totalRows, pos))))
      modifies this`nodes
      ensures pos < Pow2(totalRows) ==> nodes == old(nodes)
      ensures pos >= Pow2(totalRows) ==> nodes == PrunePosition(totalRows, old(nodes), LeftChild(totalRows, pos))
    {
      hide Row, Pow2, PrunePosition;
      RowZeroIff(totalRows, pos);
      if Row(totalRows, pos) == 0 {
        return;
      }
      Prune(LeftChild(totalRows, pos));
    }

    /** Add one leaf.  The number of leaves is left to the caller. */
    method AddSingle(add: Cached, ghost slots: seq<Hash>) returns (ok: bool)
      requires Represents(slots) && GoodSlots(slots + [add.hash]) && add.hash != Empty
      modifies this`nodes, this`cachedLeaves, this`totalRows
      ensures ok && |slots| + 1 <= Pow2(totalRows) && totalRows == MoreRows(old(totalRows), |slots| + 1)
      ensures Keeps(LayoutOf(totalRows, |slots| + 1), ForestOf(LayoutOf(totalRows, |slots| + 1), slots + [add.hash]),
                    nodes)
      ensures Linked(nodes, cachedLeaves) && Flags(nodes, cachedLeaves)
      ensures cachedLeaves.Keys == old(cachedLeaves).Keys + if add.remember then {add.hash} else {}
      ensures old(Tidy(slots, {})) ==>
                Lean(LayoutOf(totalRows, |slots| + 1), ForestOf(LayoutOf(totalRows, |slots| + 1), slots + [add.hash]),
                     nodes, {})
    {
      hide OnRow, Flags, Lean, Ways, Places, Row, Pow2, Keeps, Linked, LayoutFor, LayoutOf, ForestOf, Start, TreeRows,
           GoodSlots, AtRow, PrunePosition, Shr, MovedSet, AllUnder, Vacated, GivesWay, EmptyTop, CarryTops,
           RootPosition, IsLeafHash;
      ok := true;
      var rows := Remap(slots);
      ghost var more, o, g := slots + [add.hash], LayoutOf(rows, |slots|), LayoutOf(rows, |slots| + 1);
      LayoutOfFacts(rows, |slots|);
      LayoutOfFacts(rows, |slots| + 1);
      LayoutFits(g, rows, |slots| + 1);
      ghost var tidy := Tidy(slots, {});
      NoWays(o, cachedLeaves);
      FirstRow(o, g, rows, slots, add, nodes, cachedLeaves, tidy);
      var position, pNode := numLeaves, add;
      nodes := nodes[position := add];
      if add.remember {
        cachedLeaves := cachedLeaves[add.hash := position];
      }
      var h: nat := 0;
      while Shr(numLeaves, h) % 2 == 1
        invariant ok && totalRows == rows
        invariant OnRow(o, g, rows, more, add, position, h, pNode, nodes, cachedLeaves, tidy)
        invariant cachedLeaves.Keys == old(cachedLeaves).Keys + if add.remember then {add.hash} else {}
        decreases Shr(numLeaves, h)
      {
        RowParts(o, g, rows, more, add, position, h, pNode, nodes, cachedLeaves, tidy);
        RowFacts(o, g, rows, more, add, position, h, pNode, nodes, cachedLeaves);
        ShrLess(numLeaves, h);
        var rootPos := RootPosition(numLeaves, h, rows);
        if rootPos !in nodes {
          return false;
        }
        var node := nodes[rootPos];
        ghost var nodes0, cached0, c, pNode0 := nodes, cachedLeaves, position, pNode;
        if node.hash == Empty {
          EmptyBegins(o, g, rows, more, add, position, h, pNode, nodes, cachedLeaves);
          nodes := nodes - {position};
          if add.remember && pNode.hash == add.hash {
            if add.hash in cachedLeaves {
              cachedLeaves := cachedLeaves[add.hash := Parent(rows, position)];
            }
          }
          MoveUpDescendants(position, rootPos, g, pNode);
          EmptyRow(o, g, rows, more, add, c, h, pNode, nodes0, cached0, nodes, cachedLeaves, tidy);
        } else {
          JoinRow(o, g, rows, more, add, c, h, pNode, nodes0, cached0, tidy);
          pNode := Cached(ParentHash(node.hash, pNode.hash), false);
        }
        position := Parent(rows, position);
        nodes := nodes[position := pNode];
        PruneNieces(position);
        h := h + 1;
      }
      LastRow(o, g, rows, more, add, position, h, pNode, nodes, cachedLeaves, tidy);
    }

    /** Add leaves, remembering some of them. */
    method Add(adds: seq<Cached>, ghost slots: seq<Hash>) returns (ok: bool)
      requires Represents(slots) && GoodSlots(slots + LeafHashesOf(adds)) && forall i :: 0 <= i < |adds| ==>
               adds[i].hash != Empty
      modifies this
      ensures ok && Represents(slots + LeafHashesOf(adds)) &&
              cachedLeaves.Keys == old(cachedLeaves).Keys + ToRemember(adds)
      ensures totalRows == MoreRows(old(totalRows), |slots| + |adds|)
      ensures old(Tidy(slots, {})) ==> Tidy(slots + LeafHashesOf(adds), {})
    {
      hide Keeps, Linked, LayoutOf, ForestOf, GoodSlots, Pow2, LeafHashesOf, ToRemember, MoreRows, Lean, Ways,
           Places, Flags;
      ok := true;
      AddsNone(adds, slots);
      EnoughRows(totalRows, |slots|);
      for i := 0 to |adds|
        invariant ok && Represents(slots + LeafHashesOf(adds[..i]))
        invariant cachedLeaves.Keys == old(cachedLeaves).Keys + ToRemember(adds[..i])
        invariant totalRows == MoreRows(old(totalRows), |slots| + i)
        invariant old(Tidy(slots, {})) ==> Tidy(slots + LeafHashesOf(adds[..i]), {})
      {
        AddsMore(adds, slots, i);
        MoreRowsTwice(old(totalRows), |slots| + i, |slots| + i + 1);
        ok := AddSingle(adds[i], slots + LeafHashesOf(adds[..i]));
        if !ok {
          return false;
        }
        numLeaves := numLeaves + 1;
        NoWays(LayoutOf(totalRows, numLeaves), cachedLeaves);
      }
      assert adds[..|adds|] == adds;
    }

    /** Delete leaves that are cached, and add leaves. */
    method Modify(adds: seq<Cached>, delHashes: seq<Hash>, proof: Proof, ghost slots: seq<Hash>) returns (ok: bool)
      requires Represents(slots) && GoodSlots(slots) &&
               Deletes(ShapeOf(|slots|), slots, proof.targets, HashSet(delHashes))
      requires GoodSlots(Erase(slots, HashSet(delHashes)) + LeafHashesOf(adds)) && forall i :: 0 <= i < |adds| ==>
               adds[i].hash != Empty
      modifies this
      ensures ok <==> HashSet(delHashes) <= old(cachedLeaves).Keys
      ensures !ok ==> Represents(slots) && nodes == old(nodes) && cachedLeaves == old(cachedLeaves)
      ensures ok ==> Represents(Erase(slots, HashSet(delHashes)) + LeafHashesOf(adds))
      ensures ok ==> cachedLeaves.Keys == old(cachedLeaves).Keys - HashSet(delHashes) + ToRemember(adds)
      ensures totalRows == if ok then MoreRows(old(totalRows), |slots| + |adds|) else old(totalRows)
      ensures ok && old(Tidy(slots, {}) || Tidy(slots, HashSet(delHashes))) ==>
                Tidy(Erase(slots, HashSet(delHashes)) + LeafHashesOf(adds), {})
    {
      hide Keeps, Linked, LayoutOf, ForestOf, GoodSlots, Pow2, LeafHashesOf, ToRemember, Deletes, Erase, HashSet,
           MoreRows, Lean, Ways, Places, Flags;
      EraseCount(slots, HashSet(delHashes));
      ghost var g := LayoutOf(totalRows, numLeaves);
      NoWays(g, cachedLeaves);
      if Tidy(slots, {}) {
        LeanMore(g, ForestOf(g, slots), nodes, {}, Ways(g, Places(cachedLeaves, HashSet(delHashes))));
      }
      ok := Remove(proof, delHashes, slots);
      if ok {
        ok := Add(adds, Erase(slots, HashSet(delHashes)));
      }
    }

    /** The hashes of the roots are those a stump has. */
    method GetRoots(ghost slots: seq<Hash>) returns (roots: seq<Hash>)
      requires Represents(slots)
      ensures roots == RootHashes(slots)
    {
      hide Keeps, Linked, LayoutOf, ForestOf, Pow2, RootList, RootHashes, LayoutFor, RootTrees, Merkle;
      ghost var g := LayoutOf(totalRows, numLeaves);
      LayoutOfFacts(totalRows, numLeaves);
      var positions := RootList(numLeaves, totalRows, 0);
      roots := [];
      CachedRoots(g, totalRows, slots, nodes);
      for i := 0 to |positions|
        invariant |roots| == i && forall j :: 0 <= j < i ==> roots[j] == nodes[positions[j]].hash
      {
        roots := roots + [if positions[i] in nodes then nodes[positions[i]].hash else Empty];
      }
    }

    /** A proof of leaves that are all cached.  All that is needed is in the cache; the targets are where the leaves
        are, and the proof is honest if and only if no hash is asked for twice. */
    method Prove(proveHashes: seq<Hash>, ghost slots: seq<Hash>) returns (ok: bool, proof: Proof)
      requires Represents(slots) && GoodSlots(slots)
      ensures ok <==> HashSet(proveHashes) <= cachedLeaves.Keys
      ensures ok ==> (Proves(slots, proveHashes, proof) <==> NoRepeat(proveHashes))
      ensures if ok then Located(slots, proveHashes, proof.targets) else proof == Proof([], [])
    {
      hide Keeps, Linked, LayoutOf, ForestOf, Pow2, LayoutFor, GoodSlots, HashSet, SortPositions, PlanFor, ValidTargets,
           Merkle, At, HonestProof, Proves, TreeRows, TranslatedList, Translated, SameForest, ShapeOf, Elems, NoRepeat,
           NoDuplicates, Ascending, BesideTargets, Located;
      proof := Proof([], []);
      ok := AreCached(proveHashes);
      if !ok {
        return;
      }
      ghost var g, a := LayoutOf(totalRows, numLeaves), ShapeOf(numLeaves);
      LayoutOfFacts(totalRows, numLeaves);
      Shapes(numLeaves, 0);
      assert forall i :: 0 <= i < |proveHashes| ==> proveHashes[i] in cachedLeaves by { HashesIn(proveHashes); }
      var origTargets: seq<nat> := [];
      for i := 0 to |proveHashes|
        invariant |origTargets| == i && forall j :: 0 <= j < i ==> origTargets[j] == cachedLeaves[proveHashes[j]]
      {
        origTargets := origTargets + [cachedLeaves[proveHashes[i]]];
      }
      CachedTargets(g, totalRows, slots, nodes, cachedLeaves, proveHashes, origTargets);
      var targets := SortPositions(origTargets);
      var proofPos, _ := ProofPositions.ProofPositions(targets, numLeaves, totalRows, g);
      var hashes: seq<Hash> := [];
      for i := 0 to |proofPos|
        invariant ok && |hashes| == i && forall j :: 0 <= j < i ==>
                  hashes[j] == Merkle(At(g, ForestOf(g, slots), proofPos[j]))
      {
        NeededCached(g, totalRows, slots, nodes, origTargets, targets, proofPos, i);
        if proofPos[i] !in nodes {
          return false, proof;
        }
        hashes := hashes + [nodes[proofPos[i]].hash];
      }
      var rows := TreeRows(numLeaves);
      ghost var before := origTargets;
      if totalRows != rows {
        origTargets := TranslatePositions(origTargets, numLeaves, totalRows, rows, g, a);
      } else {
        TranslatedSame(g, a, numLeaves, totalRows, rows, origTargets);
      }
      SameForestFor(g, a, numLeaves, totalRows, rows);
      proof := Proof(origTargets, hashes);
      LocatedSame(g, a, Translated(g, totalRows, rows), slots, proveHashes, before, origTargets);
      ItProves(slots, proveHashes, proof);
      if NoRepeat(proveHashes) {
        HonestFrom(g, slots, proveHashes, before, hashes);
        HonestSame(g, a, Translated(g, totalRows, rows), slots, proveHashes, before, origTargets, hashes);
      } else if Proves(slots, proveHashes, proof) {
        NoneTwice(slots, proveHashes, proof);
      }
    }

    /** Put an honest proof into the cache, and remember its leaves. */
    method Ingest(delHashes: seq<Hash>, proof: Proof, ghost slots: seq<Hash>)
      requires Represents(slots) && GoodSlots(slots) && Proves(slots, delHashes, proof)
      modifies this`nodes, this`cachedLeaves
      ensures Represents(slots) && cachedLeaves.Keys == old(cachedLeaves).Keys + HashSet(delHashes)
      ensures var g := LayoutOf(totalRows, numLeaves);
              Ingested(g, ForestOf(g, slots), Places(cachedLeaves, HashSet(delHashes)), old(nodes), nodes)
      ensures old(Tidy(slots, {})) ==> Tidy(slots, HashSet(delHashes))
    {
      hide Keeps, Linked, LayoutOf, ForestOf, Pow2, LayoutFor, GoodSlots, HashSet, SortPositions, PlanFor, ValidTargets,
           Merkle, At, HonestProof, TreeRows, TranslatedList, Translated, SameForest, ShapeOf, Elems, SortEntries, Zip,
           Filled, Stored, StoredLeaves, OnTheWay, WellFormed, Calculable, Run, TargetMap, GivenMap, Calc, Touched,
           PositionsOf, Ascending, Sorted, Proves, Lean, Ways, Places, Ingested, Ingesting,
           Flags;
      ghost var g, a := LayoutOf(totalRows, numLeaves), ShapeOf(numLeaves);
      ghost var nodes0, cached0 := nodes, cachedLeaves;
      var rows := TreeRows(numLeaves);
      LayoutOfFacts(totalRows, numLeaves);
      Shapes(numLeaves, 0);
      IngestSetup(a, slots, delHashes, proof);
      var positions := PositionsOf(SortEntries(Zip(proof.targets, delHashes)));
      ghost var sorted := positions;
      if totalRows != rows {
        positions := TranslatePositions(positions, numLeaves, rows, totalRows, a, g);
      } else {
        TranslatedSame(a, g, numLeaves, rows, totalRows, positions);
      }  // in more rows the order is the same, so there is nothing to sort again
      IngestTargets(a, g, rows, totalRows, slots, delHashes, proof, sorted, positions);
      DistinctTargets(g, positions);
      var proofPos, _ := ProofPositions.ProofPositions(positions, numLeaves, totalRows, g);
      NeededAscending(g, Elems(positions));
      FilledNone(nodes, proofPos, proof.proof);
      for i := 0 to |proofPos|
        invariant Filled(nodes0, proofPos, proof.proof, nodes, i) && cachedLeaves == cached0
      {
        FilledMore(nodes0, proofPos, proof.proof, nodes, i);
        if proofPos[i] !in nodes {
          nodes := nodes[proofPos[i] := Cached(proof.proof[i], false)];
        }
      }
      ghost var filled := nodes;
      PlannedCalculable(a, numLeaves, Some(delHashes), proof);
      var found, _ := CalculateHashes(numLeaves, Some(delHashes), proof, a);
      var intermediate := found;
      IngestWay(a, slots, delHashes, proof, found);
      if totalRows != rows {
        var translated := TranslatePositions(PositionsOf(found), numLeaves, rows, totalRows, a, g);
        WayTranslated(a, g, rows, totalRows, slots, proof.targets, positions, sorted, found, translated);
        intermediate := Zip(translated, HashesOf(found));
      } else {
        TranslatedSame(a, g, numLeaves, rows, totalRows, PositionsOf(found));
        WayTranslated(a, g, rows, totalRows, slots, proof.targets, positions, sorted, found, PositionsOf(found));
        ZipBack(found);
      }
      WaySorted(g, ForestOf(g, slots), Elems(positions), intermediate);
      StoredNone(nodes, intermediate, positions);
      StoredLeavesNone(cachedLeaves, intermediate, positions);
      for i := 0 to |intermediate|
        invariant Stored(filled, intermediate, positions, nodes, i) &&
                  StoredLeaves(cached0, intermediate, positions, cachedLeaves, i)
      {
        StoredMore(filled, intermediate, positions, nodes, i);
        StoredLeavesMore(cached0, intermediate, positions, cachedLeaves, i);
        var pos := intermediate[i].pos;
        var remember := pos in positions;
        nodes := nodes[pos := Cached(intermediate[i].hash, remember)];
        if remember {
          cachedLeaves := cachedLeaves[intermediate[i].hash := pos];
        }
      }
      IngestEnd(g, totalRows, slots, delHashes, positions, proofPos, proof.proof, intermediate, nodes0, filled, nodes,
                cached0, cachedLeaves);
      ghost var s := Places(cachedLeaves, HashSet(delHashes));
      NoWays(g, cached0);
      if Lean(g, ForestOf(g, slots), nodes0, {}) { IngestLean(g, slots, s, nodes0, nodes); }
      WasIngested(g, slots, s, nodes0, nodes);
      IngestFlags(g, slots, HashSet(delHashes), nodes0, nodes, cached0, cachedLeaves);
    }

    /** Accepts what a stump with the same roots accepts: the targets are renumbered first, but a position in the rows
        that are needed is that of a leaf in more rows, so they stay as they are.  What is accepted may be put into the
        cache. */
    method Verify(delHashes: seq<Hash>, proof0: Proof, remember: bool, ghost slots: seq<Hash>) returns (ok: bool)
      requires Represents(slots) && GoodSlots(slots)
      requires forall p :: p in proof0.targets ==> p in ShapeOf(|slots|).nodes
      requires |delHashes| == |proof0.targets| ==> Calculable(ShapeOf(|slots|), |slots|, Some(delHashes), proof0)
      requires remember ==> Proves(slots, delHashes, proof0)
      modifies this`nodes, this`cachedLeaves
      ensures ok <==> !Refused(ShapeOf(|slots|), |slots|, delHashes, proof0, RootHashes(slots))
      ensures Represents(slots) && (!(ok && remember) ==> nodes == old(nodes) && cachedLeaves == old(cachedLeaves))
      ensures ok && remember ==> cachedLeaves.Keys == old(cachedLeaves).Keys + HashSet(delHashes)
      ensures ok && remember ==>
                var g := LayoutOf(totalRows, numLeaves);
                Ingested(g, ForestOf(g, slots), Places(cachedLeaves, HashSet(delHashes)), old(nodes), nodes)
      ensures ok && remember && old(Tidy(slots, {})) ==> Tidy(slots, HashSet(delHashes))
    {
      hide Keeps, Linked, LayoutOf, ForestOf, Pow2, LayoutFor, GoodSlots, HashSet, TreeRows, ShapeOf, Proves,
           Calculable, Candidates, Matches, RootHashes, Row, Start, Lean, Ways, Places, Ingested, Flags;
      var proof := proof0;
      if TreeRows(numLeaves) != totalRows {
        var targets := TranslateLow(proof.targets, numLeaves, totalRows);
        proof := Proof(targets, proof.proof);
        assert proof == proof0;
      }
      var roots := GetRoots(slots);
      var matched := Stumps.Verify(roots, numLeaves, delHashes, proof, ShapeOf(numLeaves));
      ok := matched.Some?;
      if ok {
        NotRefused(ShapeOf(numLeaves), numLeaves, delHashes, proof, roots, matched.value);
        if remember {
          Ingest(delHashes, proof, slots);
        }
      }
    }
  }

  /** A tidy cache of positions has an entry exactly for the roots, its leaves and what is beside their ways up. */
  lemma {:induction false} HasWhatItNeeds(m: MapPollard, slots: seq<Hash>)
    requires m.Represents(slots) && m.Tidy(slots, {})
    ensures forall p :: p in m.nodes <==> Wanted(LayoutOf(m.totalRows, m.numLeaves), m.cachedLeaves, p)
  {
    hide Keeps, Linked, Flags, Lean, LayoutOf, ForestOf, Pow2, LayoutFor, Ways, Places, Wanted;
    var g := LayoutOf(m.totalRows, m.numLeaves);
    LayoutOfFacts(m.totalRows, m.numLeaves);
    NoWays(g, m.cachedLeaves);
    forall p
      ensures p in m.nodes <==> Wanted(g, m.cachedLeaves, p)
    {
      StoredIffWanted(g, m.totalRows, slots, m.nodes, m.cachedLeaves, p);
    }
  }

  /** Two tidy caches of the same leaves of the same slots, in as many rows, have the same entries. */
  lemma {:induction false} OneCache(a: MapPollard, b: MapPollard, slots: seq<Hash>)
    requires GoodSlots(slots) && a.totalRows == b.totalRows && a.cachedLeaves.Keys == b.cachedLeaves.Keys
    requires a.Represents(slots) && a.Tidy(slots, {}) && b.Represents(slots) && b.Tidy(slots, {})
    ensures a.nodes == b.nodes && a.cachedLeaves == b.cachedLeaves
  {
    hide Keeps, Linked, Flags, Lean, LayoutOf, ForestOf, Pow2, LayoutFor, Ways, Places, GoodSlots;
    var g := LayoutOf(a.totalRows, a.numLeaves);
    LayoutOfFacts(a.totalRows, a.numLeaves);
    NoWays(g, a.cachedLeaves);
    NoWays(g, b.cachedLeaves);
    OneContent(g, a.totalRows, slots, a.nodes, a.cachedLeaves, b.nodes, b.cachedLeaves);
  }
}
