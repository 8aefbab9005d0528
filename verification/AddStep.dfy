/** A cached proof, updated when a block adds leaves. */
module AddStep {
  import opened Hashes
  import opened Positions
  import opened Geometry
  import opened Layouts
  import opened Shape
  import opened Entries
  import opened ProofPositions
  import opened Calculation
  import opened Forests
  import opened Honest
  import opened Deletion
  import opened ProofMoves
  import opened Sequential
  import opened Relocation
  import opened NewPositions
  import opened Slots
  import opened Uniqueness
  import opened Additions
  import opened Growth
  import opened Carry
  import opened Stumps
  import opened StumpAdd
  import opened UpdateData
  import opened ProofRemove
  import opened ProofFollows
  import opened RemoveStep
  import opened Translation
  import opened ProofCarried

  /** An index to be remembered is one that is larger than all before it in the list; in an
      ascending list that is every index. */
  ghost predicate Remembered(remembers: seq<nat>, i: nat) {
    exists j :: 0 <= j < |remembers| && remembers[j] == i && forall k :: 0 <= k < j ==> remembers[k] < i
  }

  lemma RememberedAscending(remembers: seq<nat>, i: nat)
    requires Ascending(remembers)
    ensures Remembered(remembers, i) <==> i in remembers
  {
  }

  ghost predicate PickedHash(adds: seq<Hash>, remembers: seq<nat>, i: nat, h: Hash) {
    i < |adds| && adds[i] == h && Remembered(remembers, i)
  }

  /** The hashes of the added leaves that are to be remembered. */
  method PickRemembered(adds: seq<Hash>, remembers: seq<nat>) returns (addHashes: seq<Hash>)
    ensures forall h :: h in addHashes <==> exists i: nat :: PickedHash(adds, remembers, i, h)
  {
    addHashes := [];
    var remembersIdx: nat, i: nat := 0, 0;
    while i < |adds| && remembersIdx < |remembers|
      invariant i <= |adds| && remembersIdx <= |remembers|
      invariant forall k :: 0 <= k < remembersIdx ==> remembers[k] < i
      invariant forall h :: h in addHashes ==> exists x: nat :: x < i && PickedHash(adds, remembers, x, h)
      invariant forall x: nat :: x < i && Remembered(remembers, x) ==> adds[x] in addHashes
      decreases |adds| - i + |remembers| - remembersIdx
    {
      if i == remembers[remembersIdx] {
        assert Remembered(remembers, i);
        assert PickedHash(adds, remembers, i, adds[i]);
        addHashes := addHashes + [adds[i]];
        remembersIdx := remembersIdx + 1;
        i := i + 1;
      } else if i > remembers[remembersIdx] {
        remembersIdx := remembersIdx + 1;
      } else {
        NotRemembered(remembers, remembersIdx, i);
        i := i + 1;
      }
    }
    assert i == |adds| || remembersIdx == |remembers|;
    forall x: nat, h | PickedHash(adds, remembers, x, h)
      ensures h in addHashes
    {
    }
  }

  lemma NotRemembered(remembers: seq<nat>, idx: nat, i: nat)
    requires idx < |remembers| && i < remembers[idx] && forall k :: 0 <= k < idx ==> remembers[k] < i
    ensures !Remembered(remembers, i)
  {
  }

  lemma {:induction false} MoveLast(g: Layout, ds: seq<nat>, i: nat, p: nat)
    requires i < |ds|
    ensures MoveAll(g, ds[..i + 1], p) == Move(g, ds[i], MoveAll(g, ds[..i], p))
    decreases i
  {
    hide Move;
    if i > 0 {
      assert ds[..i + 1][1..] == ds[1..][..i] && ds[..i][1..] == ds[1..][..i - 1];
      MoveLast(g, ds[1..], i - 1, Move(g, ds[0], p));
    } else {
      assert ds[..1] == [ds[0]] && ds[..0] == [];
    }
  }

  lemma MoveOne(g: Layout, d: nat, p: nat)
    ensures MoveAll(g, [d], p) == Move(g, d, p)
  {
  }

  /** After some of the moves, the rest of them is still to be made. */
  lemma {:induction false} MovedSoFar(g: Layout, ds: seq<nat>, i: nat, p: nat)
    requires Separate(g, ds) && Clear(g, ds, p) && i <= |ds|
    ensures Moving.Pending(g, ds, p, i, MoveAll(g, ds[..i], p))
  {
    hide Separate, Clear, MoveAll, Moving.Pending, Move;
    if i == 0 {
      MoveNone(g, p);
      assert ds[..0] == [];
      Moving.PendingStart(g, ds, p);
    } else {
      MovedSoFar(g, ds, i - 1, p);
      MoveLast(g, ds, i - 1, p);
      Moving.PendingNext(g, ds, p, i - 1, MoveAll(g, ds[..i - 1], p));
    }
  }

  lemma MoveNone(g: Layout, p: nat)
    ensures MoveAll(g, [], p) == p
  {
  }

  /** The next deletion is clear of a position that moved so far, and the position after all
      the moves is that of the moves still to be made. */
  lemma {:induction false} NextMove(g: Layout, ds: seq<nat>, i: nat, p: nat)
    requires Separate(g, ds) && Clear(g, ds, p) && i < |ds|
    ensures var q := MoveAll(g, ds[..i], p);
            && Separate(g, [ds[i]]) && Clear(g, [ds[i]], q)
            && MoveAll(g, [ds[i]], q) == MoveAll(g, ds[..i + 1], p)
            && MoveAll(g, ds[i + 1..], MoveAll(g, ds[..i + 1], p)) == MoveAll(g, ds, p)
  {
    hide Move, MoveAll, Above, Layout.WellShaped;
    var q := MoveAll(g, ds[..i], p);
    MovedSoFar(g, ds, i, p);
    MovedSoFar(g, ds, i + 1, p);
    MoveLast(g, ds, i, p);
    MoveOne(g, ds[i], q);
    NotAboveItself(g, ds[i]);
    assert ds[i..][0] == ds[i];
  }

  lemma NotAboveItself(g: Layout, d: nat)
    ensures !Above(g, d, d) && Sibling(d) != d
  {
    if Above(g, d, d) { AboveBounds(g, d, d); }
  }

  ghost predicate NoneEmpty(list: seq<Entry>) {
    forall e: Entry :: e in list ==> e.hash != Empty
  }

  /** A list that moved so far can make the next move. */
  lemma {:induction false} NextMovable(g: Layout, ds: seq<nat>, i: nat, list: seq<Entry>, now: seq<Entry>)
    requires Movable(g, ds, list, true) && NoneEmpty(list) && i < |ds| && AfterMove(g, ds[..i], list, now)
    ensures Movable(g, [ds[i]], now, true) && NoneEmpty(now)
  {
    hide MoveAll, Separate, Clear;
    forall e: Entry | e in now
      ensures Clear(g, [ds[i]], e.pos) && e.hash != Empty
    {
      var x :| x in list && x.hash != Empty && e == MovedEntry(g, ds[..i], x);
      NextMove(g, ds, i, x.pos);
    }
    SeparateOne(g, ds, i);
    forall j, k | 0 <= j < k < |now|
      ensures MoveAll(g, [ds[i]], now[j].pos) != MoveAll(g, [ds[i]], now[k].pos)
    {
      assert now[j] in now && now[k] in now;
      var x :| x in list && x.hash != Empty && now[j] == MovedEntry(g, ds[..i], x);
      var y :| y in list && y.hash != Empty && now[k] == MovedEntry(g, ds[..i], y);
      NextMove(g, ds, i, x.pos);
      NextMove(g, ds, i, y.pos);
      MovedApart(g, ds, list, x, y);
    }
  }

  lemma SeparateOne(g: Layout, ds: seq<nat>, i: nat)
    requires Separate(g, ds) && i < |ds|
    ensures Separate(g, [ds[i]])
  {
    hide Above;
    NotAboveItself(g, ds[i]);
  }

  lemma MovedApart(g: Layout, ds: seq<nat>, list: seq<Entry>, x: Entry, y: Entry)
    requires Movable(g, ds, list, true) && NoneEmpty(list) && x in list && y in list && x != y
    ensures MoveAll(g, ds, x.pos) != MoveAll(g, ds, y.pos)
  {
    var i :| 0 <= i < |list| && list[i] == x;
    var j :| 0 <= j < |list| && list[j] == y;
  }

  lemma {:induction false} AfterNext(g: Layout, ds: seq<nat>, i: nat, list: seq<Entry>, now: seq<Entry>,
                                     next: seq<Entry>)
    requires Movable(g, ds, list, true) && NoneEmpty(list) && i < |ds|
    requires AfterMove(g, ds[..i], list, now) && AfterMove(g, [ds[i]], now, next) && NoneEmpty(now)
    ensures AfterMove(g, ds[..i + 1], list, next)
  {
    hide MoveAll, Separate, Clear;
    forall e: Entry
      ensures e in next <==> exists x :: x in list && x.hash != Empty && e == MovedEntry(g, ds[..i + 1], x)
    {
      if e in next {
        var y :| y in now && y.hash != Empty && e == MovedEntry(g, [ds[i]], y);
        var x :| x in list && x.hash != Empty && y == MovedEntry(g, ds[..i], x);
        NextMove(g, ds, i, x.pos);
        assert e == MovedEntry(g, ds[..i + 1], x);
      }
      if exists x :: x in list && x.hash != Empty && e == MovedEntry(g, ds[..i + 1], x) {
        var x :| x in list && x.hash != Empty && e == MovedEntry(g, ds[..i + 1], x);
        NextMove(g, ds, i, x.pos);
        assert MovedEntry(g, ds[..i], x) in now;
        assert e == MovedEntry(g, [ds[i]], MovedEntry(g, ds[..i], x));
      }
    }
  }

  lemma {:induction false} BeforeMoves(g: Layout, list: seq<Entry>)
    requires Sorted(list) && NoneEmpty(list)
    ensures AfterMove(g, [], list, list)
  {
    forall e: Entry
      ensures e in list <==> exists x :: x in list && x.hash != Empty && e == MovedEntry(g, [], x)
    {
      assert e == MovedEntry(g, [], e);
    }
  }

  /** Move a list up, one empty root at a time. */
  method MoveOneByOne(toDestroy: seq<nat>, list: seq<Entry>, n: nat, ghost g: Layout) returns (r: seq<Entry>)
    requires LayoutFor(g, TreeRows(n), n) && Movable(g, toDestroy, list, true) && Sorted(list) && NoneEmpty(list)
    ensures AfterMove(g, toDestroy, list, r)
  {
    hide LayoutFor, Movable, AfterMove, NoneEmpty;
    r := list;
    BeforeMoves(g, list);
    assert toDestroy[..0] == [];
    for i := 0 to |toDestroy|
      invariant AfterMove(g, toDestroy[..i], list, r)
    {
      NextMovable(g, toDestroy, i, list, r);
      ghost var now := r;
      r := GetNewPositions([toDestroy[i]], r, n, true, g);
      MovedAll(g, [toDestroy[i]], now, r);
      AfterNext(g, toDestroy, i, list, now, r);
    }
    assert toDestroy[..|toDestroy|] == toDestroy;
  }

  lemma MovedAll(g: Layout, ds: seq<nat>, list: seq<Entry>, after: seq<Entry>)
    requires Sorted(after)
    requires forall e: Entry :: e in after <==> exists x :: x in list && x.hash != Empty && e == MovedEntry(g, ds, x)
    ensures AfterMove(g, ds, list, after)
  {
  }

  /** An addition to slots that can be told apart. */
  ghost predicate AddTo(g0: Layout, o: Layout, g: Layout, before: seq<Hash>, adds: seq<Hash>) {
    && LayoutFor(g0, TreeRows(|before|), |before|)
    && Adding(o, g, before, adds, TreeRows(|before| + |adds|))
    && GoodSlots(before + adds) && CollisionFree()
  }

  /** What the addition reported. */
  ghost predicate AddReport(o: Layout, g: Layout, slots: seq<Hash>, newNodes: seq<Entry>, toDestroy: seq<nat>) {
    && Sorted(newNodes) && AllTrue(g, slots, newNodes) && Reported(o, g, slots, newNodes)
    && Ascending(toDestroy) && forall p: nat :: p in toDestroy <==> p in WrittenOver(o, g, slots)
  }

  lemma {:induction false} AddShapes(g0: Layout, o: Layout, g: Layout, before: seq<Hash>, adds: seq<Hash>)
    requires AddTo(g0, o, g, before, adds)
    ensures Grows(o, g, before, adds) && |before| + |adds| <= g.m
    ensures g0.WellShaped() && o.WellShaped() && g.WellShaped()
    ensures LayoutFor(g0, TreeRows(|before|), |before|) && LayoutFor(g, TreeRows(|before| + |adds|), |before| + |adds|)
    ensures SameForest(g0, o, Translated(g0, TreeRows(|before|), TreeRows(|before| + |adds|)))
    ensures Compact(g0, ForestOf(g0, before))
  {
    hide LayoutFor, Grows, SameForest, Translated, GoodSlots, CollisionFree, Compact, ForestOf;
    var rows := TreeRows(|before| + |adds|);
    GrowsFor(rows, before, adds, o, g);
    GrowsShaped(o, g, before, adds);
    LayoutFits(g0, TreeRows(|before|), |before|);
    LayoutFits(g, rows, |before| + |adds|);
    SameForestFor(g0, o, |before|, TreeRows(|before|), rows);
    ForestOfCompact(g0, before);
  }

  /** The lists of an honest proof, renumbered, are lists of the old forest in the new rows. */
  lemma {:induction false} RenumberedLists(g0: Layout, o: Layout, g: Layout, before: seq<Hash>, adds: seq<Hash>,
                                           t: map<nat, nat>, c: set<nat>, leaves: seq<Entry>, proofs: seq<Entry>,
                                           leaves': seq<Entry>, proofs': seq<Entry>)
    requires Grows(o, g, before, adds) && |before| + |adds| <= g.m && SameForest(g0, o, t)
    requires LeafList(g0, ForestOf(g0, before), c, leaves) && Sorted(proofs)
    requires forall x :: x in c ==> x in g0.nodes && At(g0, ForestOf(g0, before), x).Leaf?
    requires forall e: Entry :: e in proofs <==>
               IsProofPos(g0, c, e.pos) && e.hash == Merkle(At(g0, ForestOf(g0, before), e.pos))
    requires Renumbered(t, leaves, leaves') && Renumbered(t, proofs, proofs')
    ensures OldLists(o, g, before, adds, Image(t, c), leaves', proofs')
  {
    hide At, ForestOf, Merkle, IsProofPos, SameForest, Grows, Renumbered;
    var f0, f, s := ForestOf(g0, before), ForestOf(o, before), Image(t, c);
    RenumberedFacts(g0, o, t, leaves, leaves');
    RenumberedFacts(g0, o, t, proofs, proofs');
    SameShapes(g0, o, t);
    forall x | x in s
      ensures x in o.nodes && At(o, f, x).Leaf?
    {
      var p :| p in c && p in t && t[p] == x;
      AtSame(g0, o, t, before, p);
      SameNode(g0, o, t, p);
    }
    forall e: Entry
      ensures e in leaves' <==> e.pos in s && At(o, f, e.pos) == Leaf(e.hash)
      ensures e in proofs' <==> IsProofPos(o, s, e.pos) && e.hash == Merkle(At(o, f, e.pos))
    {
      if e.pos in o.nodes {
        var p := Untranslate(g0, o, t, e.pos);
        assert e == Entry(t[p], e.hash);
        AtSame(g0, o, t, before, p);
        ImageAt(g0, o, t, c, p);
        ProofPosSame(g0, o, t, c, p);
      } else {
        OnlyNodes(o, s, e.pos);
      }
    }
  }

  lemma OnlyNodes(o: Layout, s: set<nat>, p: nat)
    requires p !in o.nodes
    ensures !IsProofPos(o, s, p)
  {
  }

  /** The entries with a remembered hash are the new leaves that are remembered. */
  lemma {:induction false} RememberedEntries(o: Layout, g: Layout, before: seq<Hash>, adds: seq<Hash>, n: set<nat>,
                                             newNodes: seq<Entry>, nodes: seq<Entry>, hashes: seq<Hash>, r: seq<Entry>)
    requires Grows(o, g, before, adds) && |before| + |adds| <= g.m && GoodSlots(before + adds) && CollisionFree()
    requires NewLeaves(before, adds, n)
    requires forall h :: h in hashes <==> exists x :: x in n && HashAt(before, adds, x, h)
    requires Reported(o, g, before + adds, newNodes) && Within(newNodes, nodes) && AllTrue(g, before + adds, nodes)
    requires Sorted(r) && forall e: Entry :: e in r <==> e in nodes && e.hash in hashes
    ensures LeafList(g, ForestOf(g, before + adds), Moved(g, WrittenOver(o, g, before + adds), n), r)
  {
    hide At, ForestOf, Merkle, Grows, Reported, AllTrue, Within, Collapse, WrittenOver, NewPos, GoodSlots,
         CollisionFree;
    var w, f := WrittenOver(o, g, before + adds), ForestOf(g, before + adds);
    GrowsShaped(o, g, before, adds);
    forall e: Entry
      ensures e in r <==> e.pos in Moved(g, w, n) && At(g, f, e.pos) == Leaf(e.hash)
    {
      if e in r {
        var x :| x in n && HashAt(before, adds, x, e.hash);
        NewLeafPlace(o, g, before, adds, newNodes, x);
        TrueAt(g, before + adds, nodes, e);
        TrueLeaf(g, before + adds, e, NewPos(g, w, x));
        assert NewPos(g, w, x) in Moved(g, w, n);
      }
      if e.pos in Moved(g, w, n) && At(g, f, e.pos) == Leaf(e.hash) {
        var x :| x in n && NewPos(g, w, x) == e.pos;
        NewLeafPlace(o, g, before, adds, newNodes, x);
        WithinAt(newNodes, nodes, e);
        assert HashAt(before, adds, x, e.hash);
      }
    }
  }

  ghost predicate HashAt(before: seq<Hash>, adds: seq<Hash>, x: nat, h: Hash) {
    |before| <= x < |before| + |adds| && adds[x - |before|] == h
  }

  lemma TrueAt(g: Layout, slots: seq<Hash>, s: seq<Entry>, e: Entry)
    requires AllTrue(g, slots, s) && e in s
    ensures TrueEntry(g, slots, e)
  {
  }

  /** A new leaf is reported at its place. */
  lemma {:induction false} NewLeafPlace(o: Layout, g: Layout, before: seq<Hash>, adds: seq<Hash>, newNodes: seq<Entry>,
                                        x: nat)
    requires Grows(o, g, before, adds) && |before| <= x < |before| + |adds| <= g.m
    requires Reported(o, g, before + adds, newNodes)
    ensures var h, q := adds[x - |before|], NewPos(g, WrittenOver(o, g, before + adds), x);
            At(g, ForestOf(g, before + adds), q) == Leaf(h) && Entry(q, h) in newNodes
  {
    hide At, ForestOf, AssembledForest, Grows, Collapse, WrittenOver, NewPos;
    NewLeafAt(o, g, before, adds, x);
    UpperPlace(o, g, before, adds, x);
  }

  /** A true entry with the hash of a leaf is that leaf. */
  lemma {:induction false} TrueLeaf(g: Layout, slots: seq<Hash>, e: Entry, q: nat)
    requires g.WellShaped() && GoodSlots(slots) && CollisionFree() && TrueEntry(g, slots, e)
    requires At(g, ForestOf(g, slots), q) == Leaf(e.hash)
    ensures e.pos == q
  {
    hide At, ForestOf, GoodSlots, CollisionFree, Layout.WellShaped;
    AtLeafHashes(g, slots, e.pos);
    AtLeafHashes(g, slots, q);
    MerkleInjective(At(g, ForestOf(g, slots), e.pos), At(g, ForestOf(g, slots), q));
    OnePlace(g, slots, e.pos, q);
  }

  /** Two lists of leaves, merged. */
  lemma {:induction false} MergedLeaves(g: Layout, f: Forest, s: set<nat>, u: set<nat>, a: seq<Entry>, b: seq<Entry>,
                                        c: seq<Entry>)
    requires LeafList(g, f, s, a) && LeafList(g, f, u, b) && Sorted(c)
    requires forall e: Entry :: e in c <==> e in a || (e in b && e.pos !in PositionsOf(a))
    ensures LeafList(g, f, s + u, c)
  {
    hide At;
    forall e: Entry | e in b && e.pos in PositionsOf(a)
      ensures e in a
    {
      var i :| 0 <= i < |a| && PositionsOf(a)[i] == e.pos;
      assert a[i] in a;
    }
  }

  lemma MovedUnion(g: Layout, d: set<nat>, s: set<nat>, u: set<nat>)
    ensures Moved(g, d, s + u) == Moved(g, d, s) + Moved(g, d, u)
  {
  }

  /** The proof hashes found are those needed. */
  lemma {:induction false} AllFound(o: Layout, g: Layout, before: seq<Hash>, adds: seq<Hash>, s: set<nat>, n: set<nat>,
                                    reported: seq<Entry>, carried: seq<Entry>, nodes: seq<Entry>, needed: seq<nat>,
                                    found: seq<Entry>)
    requires Carried(o, g, before, adds, s, n) && Reported(o, g, before + adds, reported)
    requires forall q: nat :: IsProofPos(o, s, q) ==>
              Entry(NewPos(g, WrittenOver(o, g, before + adds), q), Merkle(At(o, ForestOf(o, before), q))) in carried
    requires Within(reported, nodes) && Within(carried, nodes) && Sorted(nodes) && AllTrue(g, before + adds, nodes)
    requires Ascending(needed)
    requires forall x: nat :: x in needed <==> IsProofPos(g, Moved(g, WrittenOver(o, g, before + adds), s + n), x)
    requires found == Found(MapOf(nodes), needed, |needed|)
    ensures Sorted(found)
    ensures forall e: Entry :: e in found <==>
              IsProofPos(g, Moved(g, WrittenOver(o, g, before + adds), s + n), e.pos) &&
              e.hash == Merkle(At(g, ForestOf(g, before + adds), e.pos))
  {
    hide At, ForestOf, Merkle, Grows, Reported, Within, WrittenOver, NewPos, Moved, IsProofPos, MapOf, Found, Carried;
    FoundFacts(MapOf(nodes), needed, |needed|);
    assert needed[..|needed|] == needed;
    MapOfFacts(nodes);
    forall e: Entry
      ensures e in found <==> e.pos in needed && e.hash == Merkle(At(g, ForestOf(g, before + adds), e.pos))
    {
      if e in found {
        assert e in nodes;
      }
      if e.pos in needed && e.hash == Merkle(At(g, ForestOf(g, before + adds), e.pos)) {
        NeededFound(o, g, before, adds, s, n, reported, carried, e.pos);
        if e in reported { WithinAt(reported, nodes, e); } else { WithinAt(carried, nodes, e); }
      }
    }
  }

  /** The new leaves to be remembered. */
  ghost function RememberedLeaves(before: seq<Hash>, adds: seq<Hash>, remembers: seq<nat>): set<nat> {
    set i: nat | i < |adds| && Remembered(remembers, i) :: |before| + i
  }

  lemma {:induction false} RememberedHashes(before: seq<Hash>, adds: seq<Hash>, remembers: seq<nat>, hashes: seq<Hash>)
    requires forall h :: h in hashes <==> exists i: nat :: PickedHash(adds, remembers, i, h)
    ensures NewLeaves(before, adds, RememberedLeaves(before, adds, remembers))
    ensures forall h :: h in hashes <==>
              exists x :: x in RememberedLeaves(before, adds, remembers) && HashAt(before, adds, x, h)
  {
    hide Remembered;
    var n := RememberedLeaves(before, adds, remembers);
    forall h
      ensures h in hashes <==> exists x :: x in n && HashAt(before, adds, x, h)
    {
      if h in hashes {
        var i: nat :| PickedHash(adds, remembers, i, h);
        assert |before| + i in n && HashAt(before, adds, |before| + i, h);
      }
      if exists x :: x in n && HashAt(before, adds, x, h) {
        var x :| x in n && HashAt(before, adds, x, h);
        assert PickedHash(adds, remembers, x - |before|, h);
      }
    }
  }

  /** Where the leaves of the old forest are in the rows of the new one. */
  ghost function Renumber(g0: Layout, before: seq<Hash>, adds: seq<Hash>): map<nat, nat> {
    Translated(g0, TreeRows(|before|), TreeRows(|before| + |adds|))
  }

  /** The leaves and the hashes of the proof, with their positions in the new rows. */
  method AttachPositions(numAdds: nat, cachedHashes: seq<Hash>, proof: Proof, n: nat, ghost g0: Layout, ghost o: Layout,
                         ghost g: Layout, ghost before: seq<Hash>, ghost adds: seq<Hash>)
    returns (leaves: seq<Entry>, proofs: seq<Entry>)
    requires AddTo(g0, o, g, before, adds) && n == |before| && numAdds == |adds|
    requires HonestProof(g0, ForestOf(g0, before), cachedHashes, proof)
    ensures OldLists(o, g, before, adds, Image(Renumber(g0, before, adds), Elems(proof.targets)), leaves, proofs)
  {
    hide LayoutFor, At, ForestOf, Merkle, IsProofPos, SameForest, Grows, SortEntries, PlanFor, Translated, HonestProof,
         AddTo, SolidExcept, Layout.WellShaped, OldLists;
    ghost var f, c := ForestOf(g0, before), Elems(proof.targets);
    AddShapes(g0, o, g, before, adds);
    ProofShape(g0, n, f, cachedHashes, proof);
    SortedLeaves(g0, f, cachedHashes, proof);
    var sorted := SortEntries(Zip(proof.targets, cachedHashes));
    LeafElems(g0, f, sorted, c);
    var proofPos, _ := ProofPositions.ProofPositions(PositionsOf(sorted), n, TreeRows(n), g0);
    ProofList(g0, f, cachedHashes, proof);
    var withPos := SortEntries(Zip(proofPos, proof.proof));
    ListNodes(g0, f, c, sorted, withPos);
    leaves := MaybeRemap(n, numAdds, sorted, g0);
    proofs := MaybeRemap(n, numAdds, withPos, g0);
    RenumberedLists(g0, o, g, before, adds, Renumber(g0, before, adds), c, sorted, withPos, leaves, proofs);
  }

  lemma {:induction false} ProofShape(g: Layout, n: nat, f: Forest, hashes: seq<Hash>, proof: Proof)
    requires LayoutFor(g, TreeRows(n), n) && Compact(g, f) && HonestProof(g, f, hashes, proof)
    ensures ValidTargets(g, Elems(proof.targets)) && |hashes| == |proof.targets|
    ensures forall x :: x in Elems(proof.targets) ==> x in g.nodes && At(g, f, x).Leaf?
  {
    hide LayoutFor, At, PlanFor, Touched;
    LayoutFits(g, TreeRows(n), n);
    HonestTargets(g, f, hashes, proof);
    LeavesValid(g, f, Elems(proof.targets));
  }

  lemma ListNodes(g: Layout, f: Forest, c: set<nat>, leaves: seq<Entry>, proofs: seq<Entry>)
    requires forall x :: x in c ==> x in g.nodes
    requires forall e: Entry :: e in leaves <==> e.pos in c && At(g, f, e.pos) == Leaf(e.hash)
    requires forall e: Entry :: e in proofs <==> IsProofPos(g, c, e.pos) && e.hash == Merkle(At(g, f, e.pos))
    ensures forall e: Entry :: e in leaves || e in proofs ==> e.pos in g.nodes
  {
    hide At, Merkle;
  }

  /** The leaves of the proof and its hashes, moved up past the empty roots written over. */
  lemma {:induction false} OldMovable(o: Layout, g: Layout, before: seq<Hash>, adds: seq<Hash>, s: set<nat>,
                                      leaves: seq<Entry>, proofs: seq<Entry>, ds: seq<nat>)
    requires OldLists(o, g, before, adds, s, leaves, proofs)
    requires Ascending(ds) && forall p: nat :: p in ds <==> p in WrittenOver(o, g, before + adds)
    ensures Largest(g, WrittenOver(o, g, before + adds), ds)
    ensures Sorted(leaves) && Sorted(proofs) && NoneEmpty(leaves) && NoneEmpty(proofs)
    ensures Movable(g, ds, leaves, true) && Movable(g, ds, proofs, true)
  {
    hide At, ForestOf, Merkle, IsProofPos, Grows, WrittenOver, Largest, AssembledForest, Deletable, Stay, LeafList,
         SomeLeft, MoveAll, Separate, Clear, Collapse;
    var v, w := AssembledForest(o, g, before + adds), WrittenOver(o, g, before + adds);
    OldListFacts(o, g, before, adds, s, leaves, proofs);
    WrittenOverLargest(o, g, before, adds, ds);
    AssembledDeletable(o, g, before, adds);
    CarriedStay(o, g, before, adds, s, {});
    LeavesMovable(g, v, w, ds, s, leaves);
    ProofsMovable(g, v, w, ds, s, proofs);
  }

  lemma {:induction false} CarriedLeaves(o: Layout, g: Layout, before: seq<Hash>, adds: seq<Hash>, s: set<nat>,
                                         leaves: seq<Entry>, proofs: seq<Entry>, ds: seq<nat>, after: seq<Entry>)
    requires OldLists(o, g, before, adds, s, leaves, proofs)
    requires Largest(g, WrittenOver(o, g, before + adds), ds) && AfterMove(g, ds, leaves, after)
    ensures LeafList(g, ForestOf(g, before + adds), Moved(g, WrittenOver(o, g, before + adds), s), after)
  {
    hide At, ForestOf, Merkle, IsProofPos, Grows, WrittenOver, Largest, AssembledForest, Deletable, Stay, LeafList,
         SomeLeft, AfterMove, Moved;
    var v, w := AssembledForest(o, g, before + adds), WrittenOver(o, g, before + adds);
    OldListFacts(o, g, before, adds, s, leaves, proofs);
    AssembledDeletable(o, g, before, adds);
    AddedForest(o, g, before, adds);
    CarriedStay(o, g, before, adds, s, {});
    LeavesFollow(g, v, w, ds, s, leaves, after);
  }

  /** All leaves to be proved are leaves of the forest after the addition. */
  lemma {:induction false} AfterLeaves(o: Layout, g: Layout, before: seq<Hash>, adds: seq<Hash>, s: set<nat>,
                                       n: set<nat>)
    requires Carried(o, g, before, adds, s, n)
    ensures var u := Moved(g, WrittenOver(o, g, before + adds), s + n);
            && (forall x :: x in u ==> At(g, ForestOf(g, before + adds), x).Leaf?)
            && ValidTargets(g, u)
  {
    hide At, ForestOf, Grows, WrittenOver, AssembledForest, Deletable, Stay, Moved, Touched;
    GrowsShaped(o, g, before, adds);
    AssembledDeletable(o, g, before, adds);
    AddedForest(o, g, before, adds);
    CarriedStay(o, g, before, adds, s, n);
    StayMoved(g, AssembledForest(o, g, before + adds), WrittenOver(o, g, before + adds), s + n);
    ForestOfCompact(g, before + adds);
    LeavesValid(g, ForestOf(g, before + adds), Moved(g, WrittenOver(o, g, before + adds), s + n));
  }

  /** Where the leaves are that are proved after the addition. */
  ghost function TargetsAfter(g0: Layout, o: Layout, g: Layout, before: seq<Hash>, adds: seq<Hash>, c: set<nat>,
                              remembers: seq<nat>): set<nat> {
    Moved(g, WrittenOver(o, g, before + adds), Image(Renumber(g0, before, adds), c) + RememberedLeaves(before, adds,
        remembers))
  }

  /** Update a proof for cached leaves after an addition, and cache some of the new leaves.
      The result is an honest proof in the forest after the addition. */
  method UpdateProofAdd(adds: seq<Hash>, cachedHashes: seq<Hash>, proof: Proof, remembers: seq<nat>,
                        newNodes: seq<Entry>, n: nat, toDestroy: seq<nat>, ghost g0: Layout, ghost o: Layout,
                        ghost g: Layout, ghost before: seq<Hash>)
    returns (p: Proof, hashes: seq<Hash>)
    requires AddTo(g0, o, g, before, adds) && n == |before|
    requires HonestProof(g0, ForestOf(g0, before), cachedHashes, proof)
    requires AddReport(o, g, before + adds, newNodes, toDestroy)
    ensures HonestProof(g, ForestOf(g, before + adds), hashes, p)
    ensures Ascending(p.targets)
    ensures Elems(p.targets) == TargetsAfter(g0, o, g, before, adds, Elems(proof.targets), remembers)
  {
    hide LayoutFor, At, ForestOf, Merkle, IsProofPos, Grows, SortEntries, PlanFor, Translated, HonestProof, AddTo,
         OldLists, Largest, WrittenOver, Moved, AllTrue, Reported, Within, AfterMove, LeafList, NewPos, Movable,
         NoneEmpty, Image, MapOf, Found, HashSubset, Remembered, HashAt, Carried, Touched, RememberedLeaves, GoodSlots,
         CollisionFree, Layout.WellShaped, PickedHash, TreeRows;
    ghost var s := Image(Renumber(g0, before, adds), Elems(proof.targets));
    ghost var w, f, u := WrittenOver(o, g, before + adds), ForestOf(g, before + adds),
        RememberedLeaves(before, adds, remembers);
    AddShapes(g0, o, g, before, adds);
    var numLeaves := n + |adds|;
    var oldLeaves, oldProofs := AttachPositions(|adds|, cachedHashes, proof, n, g0, o, g, before, adds);
    OldMovable(o, g, before, adds, s, oldLeaves, oldProofs, toDestroy);
    var leaves := MoveOneByOne(toDestroy, oldLeaves, numLeaves, g);
    var carried := MoveOneByOne(toDestroy, oldProofs, numLeaves, g);
    CarriedLeaves(o, g, before, adds, s, oldLeaves, oldProofs, toDestroy, leaves);
    CarriedHashes(o, g, before, adds, s, oldLeaves, oldProofs, toDestroy, carried);
    AfterSorted(g, toDestroy, oldProofs, carried);
    var nodes := MergeSorted(newNodes, carried);
    MergeTrue(g, before + adds, newNodes, carried, nodes);

    var addHashes := PickRemembered(adds, remembers);
    RememberedHashes(before, adds, remembers, addHashes);
    var newLeaves := GetHashSubset(nodes, addHashes);
    AddDistinct(g0, o, g, before, adds);
    RememberedEntries(o, g, before, adds, u, newNodes, nodes, addHashes, newLeaves);
    LeafListSorted(g, f, Moved(g, w, u), newLeaves);
    LeafListSorted(g, f, Moved(g, w, s), leaves);
    var all := MergeSorted(newLeaves, leaves);
    MergedLeaves(g, f, Moved(g, w, u), Moved(g, w, s), newLeaves, leaves, all);
    MovedUnion(g, w, s, u);
    assert Moved(g, w, s + u) == Moved(g, w, u) + Moved(g, w, s);

    OldCarried(o, g, before, adds, s, u, oldLeaves, oldProofs);
    AfterLeaves(o, g, before, adds, s, u);
    LeafListIff(g, f, Moved(g, w, s + u), all);
    LeafElems(g, f, all, Moved(g, w, s + u));
    PlanIsProofPos(g, Moved(g, w, s + u));
    var needed, _ := ProofPositions.ProofPositions(PositionsOf(all), numLeaves, TreeRows(numLeaves), g);
    var found := AddMissing(needed, nodes);
    AllFound(o, g, before, adds, s, u, newNodes, carried, nodes, needed, found);
    SortFacts(found);
    found := SortEntries(found);
    MakeHonest(g, f, all, found, Moved(g, w, s + u));
    p, hashes := Proof(PositionsOf(all), HashesOf(found)), HashesOf(all);
  }

  lemma AfterSorted(g: Layout, ds: seq<nat>, list: seq<Entry>, after: seq<Entry>)
    requires AfterMove(g, ds, list, after)
    ensures Sorted(after)
  {
  }

  lemma LeafListSorted(g: Layout, f: Forest, s: set<nat>, list: seq<Entry>)
    requires LeafList(g, f, s, list)
    ensures Sorted(list)
  {
  }

  lemma LeafListIff(g: Layout, f: Forest, s: set<nat>, list: seq<Entry>)
    requires LeafList(g, f, s, list)
    ensures Sorted(list) && forall e: Entry :: e in list <==> e.pos in s && At(g, f, e.pos) == Leaf(e.hash)
  {
  }

  lemma AddDistinct(g0: Layout, o: Layout, g: Layout, before: seq<Hash>, adds: seq<Hash>)
    requires AddTo(g0, o, g, before, adds)
    ensures GoodSlots(before + adds) && CollisionFree()
  {
    hide LayoutFor;
  }

  lemma OldCarried(o: Layout, g: Layout, before: seq<Hash>, adds: seq<Hash>, s: set<nat>, n: set<nat>,
                   leaves: seq<Entry>, proofs: seq<Entry>)
    requires OldLists(o, g, before, adds, s, leaves, proofs) && NewLeaves(before, adds, n)
    ensures Carried(o, g, before, adds, s, n)
  {
    hide At, ForestOf, IsProofPos, Merkle;
  }
}
