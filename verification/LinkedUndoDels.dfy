/** Putting all deleted nodes back by their pointers. */
module LinkedUndoDels {
  import opened Hashes
  import opened Options
  import opened Positions
  import opened Geometry
  import opened Layouts
  import opened Entries
  import opened Shape
  import opened Forests
  import opened Honest
  import opened Deletion
  import opened Sequential
  import opened DeTwin
  import opened Relocation
  import opened Slots
  import opened Uniqueness
  import opened TreeIndex
  import opened OneDeletion
  import opened Stumps
  import opened Pollards
  import opened LeafCounts
  import opened Nieces
  import opened NieceEdits
  import opened NiecePollard
  import opened PollardUndo
  import opened Cells
  import opened CellHashes
  import opened CellEdits
  import opened CellInserts
  import opened Links
  import opened LinkedAdd
  import opened LinkedUndo
  import opened LinkedPutBack

  /** A node with the position it belongs at. */
  datatype NodePos = NodePos(pos: nat, node: Ref)

  function PosOf(s: seq<NodePos>): (r: seq<nat>)
    ensures |r| == |s| && forall i :: 0 <= i < |s| ==> r[i] == s[i].pos
  {
    seq(|s|, i requires 0 <= i < |s| => s[i].pos)
  }

  /** Trees to be put back, by the position of their root: they hang from nowhere and have no cells in common. */
  ghost predicate Loose(h: Heap, ks: seq<Skel>, sk: map<nat, Skel>) {
    && (forall p :: p in sk ==> Aside(h, ks, sk[p]))
    && (forall p, q :: p in sk && q in sk && p != q ==> Refs(sk[p]) !! Refs(sk[q]))
  }

  /** Every node is the root of what the forest has at its position. */
  ghost predicate InPlace(g: Layout, f: Forest, h: Heap, s: seq<NodePos>, sk: map<nat, Skel>) {
    forall i :: 0 <= i < |s| ==>
      s[i].pos in sk && RefOf(sk[s[i].pos]) == s[i].node && IsRootNode(Val(h, sk[s[i].pos]), At(g, f, s[i].pos))
  }

  /** The map leads to the cell that has a hash, be it of the pollard or still to be put back. */
  ghost predicate MapAll(h: Heap, ks: seq<Skel>, sk: map<nat, Skel>, nodeMap: map<Hash, Ref>) {
    && MapRight(h, ks, nodeMap)
    && forall p, x :: p in sk && x in Refs(sk[p]) && x in h && h[x].data in nodeMap ==> nodeMap[h[x].data] == x
  }

  /** Trees whose cells do not change stay as they are. */
  lemma {:induction false} StayLoose(h: Heap, h': Heap, s: set<Ref>, ks: seq<Skel>, sk: map<nat, Skel>, ks': seq<Skel>,
                                     sk': map<nat, Skel>)
    requires Loose(h, ks, sk) && Beyond(h, h', s)
    requires forall p :: p in sk' ==> p in sk && sk'[p] == sk[p] && Refs(sk[p]) !! s
    requires forall p, i :: p in sk' && 0 <= i < |ks'| ==> Refs(ks'[i]) !! Refs(sk'[p])
    ensures Loose(h', ks', sk') && forall p :: p in sk' ==> Val(h', sk'[p]) == Val(h, sk[p])
  {
    hide Tied, Apart, Refs, Val;
    forall p | p in sk'
      ensures Aside(h', ks', sk'[p]) && Val(h', sk'[p]) == Val(h, sk[p])
    {
      KeepTied(h, h', s, sk[p], NIL);
    }
  }

  lemma {:induction false} OneLoose(h: Heap, ks: seq<Skel>, sk: map<nat, Skel>, p: nat, m: Skel)
    requires Loose(h, ks, sk) && Aside(h, ks, m) && forall q :: q in sk && q != p ==> Refs(sk[q]) !! Refs(m)
    ensures Loose(h, ks, sk[p := m])
  {
    hide Tied, Apart, Refs;
  }

  lemma {:induction false} LooseIn(h: Heap, ks: seq<Skel>, sk: map<nat, Skel>, p: nat)
    requires Loose(h, ks, sk) && p in sk
    ensures Refs(sk[p]) <= h.Keys && sk[p].Skel? && sk[p].ref in Refs(sk[p])
  {
    hide Tied, Apart, Refs;
    TiedIn(h, sk[p], NIL);
    RefsParts(sk[p]);
  }

  /** No cell has the hash. */
  ghost predicate Unknown(h: Heap, ks: seq<Skel>, sk: map<nat, Skel>, hash: Hash) {
    && (forall i, x :: 0 <= i < |ks| && x in Refs(ks[i]) && x in h ==> h[x].data != hash)
    && (forall p, x :: p in sk && x in Refs(sk[p]) && x in h ==> h[x].data != hash)
  }

  /** A new cell for a leaf. */
  lemma {:induction false} NewLoose(h: Heap, next: Ref, roots: seq<Ref>, ks: seq<Skel>, sk: map<nat, Skel>, p: nat,
                                    hash: Hash)
    requires Room(h, next) && Linked(h, roots, ks) && Loose(h, ks, sk) && p !in sk
    ensures var h', m := h[next := Cell(hash, NIL, NIL, NIL, true)], Skel(next, NoSkel, NoSkel);
            && Room(h', next + 1) && Linked(h', roots, ks) && ValsOf(h', ks) == ValsOf(h, ks) &&
               Loose(h', ks, sk[p := m])
            && (forall q :: q in sk ==> Val(h', sk[q]) == Val(h, sk[q]))
            && Val(h', m) == Pol(hash, NoNode, NoNode, true) && Refs(m) == {next}
  {
    hide Tied, Apart, Refs, Val, Linked;
    var h', m := h[next := Cell(hash, NIL, NIL, NIL, true)], Skel(next, NoSkel, NoSkel);
    NotInUse(h, next, roots, ks);
    LinkedBeyond(h, h', {next}, roots, ks);
    NewLeaf(h', next, m);
    forall q | q in sk
      ensures Refs(sk[q]) !! {next}
    {
      LooseIn(h, ks, sk, q);
    }
    StayLoose(h, h', {next}, ks, sk, ks, sk);
    OneLoose(h', ks, sk, p, m);
  }

  lemma {:induction false} NewMapped(h: Heap, next: Ref, ks: seq<Skel>, sk: map<nat, Skel>, p: nat, hash: Hash,
                                     nodeMap: map<Hash, Ref>, m: Skel)
    requires next !in h && MapAll(h, ks, sk, nodeMap) && Unknown(h, ks, sk, hash) && Refs(m) == {next} && p !in sk
    requires (forall i :: 0 <= i < |ks| ==> Refs(ks[i]) <= h.Keys) && forall q :: q in sk ==> Refs(sk[q]) <= h.Keys
    ensures MapAll(h[next := Cell(hash, NIL, NIL, NIL, true)], ks, sk[p := m], nodeMap[hash := next])
  {
    hide Refs;
    var h', sk', nodeMap' := h[next := Cell(hash, NIL, NIL, NIL, true)], sk[p := m], nodeMap[hash := next];
    forall i, x | 0 <= i < |ks| && x in Refs(ks[i]) && x in h' && h'[x].data in nodeMap'
      ensures nodeMap'[h'[x].data] == x
    {
      assert x in h;
    }
    forall q, x | q in sk' && x in Refs(sk'[q]) && x in h' && h'[x].data in nodeMap'
      ensures nodeMap'[h'[x].data] == x
    {
      if q != p { assert x in Refs(sk[q]) && x in h; }
    }
  }

  /** The hashes put back are those of leaves, all different, and none is left in the pollard. */
  lemma {:induction false} BackHashes(g: Layout, slots: seq<Hash>, dels: seq<nat>, delHashes: seq<Hash>,
                                      hashes: set<Hash>)
    requires Deletes(g, slots, dels, hashes) && GoodSlots(slots) && LeavesAt(g, ForestOf(g, slots), dels, delHashes)
    ensures |delHashes| == |dels|
    ensures forall i :: 0 <= i < |dels| ==> IsLeafHash(delHashes[i]) && delHashes[i] !in LeafKeys(Erase(slots, hashes))
    ensures forall i, j :: 0 <= i < j < |dels| ==> delHashes[i] != delHashes[j]
  {
    hide LayoutFor, ForestOf, GoodSlots, At, Erase, LeafKeys, IsLeafHash, Layout.WellShaped, TreeRows;
    LayoutFits(g, TreeRows(|slots|), |slots|);
    ErasedKeys(slots, hashes);
    forall i | 0 <= i < |dels|
      ensures IsLeafHash(delHashes[i]) && delHashes[i] !in LeafKeys(Erase(slots, hashes))
    {
      LeafIsHash(g, slots, dels[i]);
      assert dels[i] in Elems(dels);
    }
    forall i, j | 0 <= i < j < |dels|
      ensures delHashes[i] != delHashes[j]
    {
      if delHashes[i] == delHashes[j] { OnePlace(g, slots, dels[i], dels[j]); }
    }
  }

  /** Cells of leaves that are to be put back. */
  ghost predicate Leaves(h: Heap, sk: map<nat, Skel>, dels: seq<nat>, delHashes: seq<Hash>, n: nat)
    requires n <= |dels| && |dels| == |delHashes|
  {
    && (forall j :: 0 <= j < n ==> dels[j] in sk && forall x :: x in Refs(sk[dels[j]]) && x in h ==>
        h[x].data == delHashes[j])
    && (forall p :: p in sk ==> exists j :: 0 <= j < n && dels[j] == p)
  }

  lemma {:induction false} StillUnknown(h: Heap, roots: seq<Ref>, ks: seq<Skel>, sk: map<nat, Skel>, slots: seq<Hash>,
                                        dels: seq<nat>, delHashes: seq<Hash>, i: nat)
    requires Linked(h, roots, ks) && Grove(ValsOf(h, ks), RootTrees(slots, 0)) && |dels| == |delHashes| && i < |dels|
    requires IsLeafHash(delHashes[i]) && delHashes[i] !in LeafKeys(slots) && Leaves(h, sk, dels, delHashes, i)
    requires forall j :: 0 <= j < i ==> delHashes[j] != delHashes[i]
    ensures Unknown(h, ks, sk, delHashes[i])
  {
    hide Linked, Grove, RootTrees, Refs, LeafKeys, IsLeafHash;
    forall k, x | 0 <= k < |ks| && x in Refs(ks[k]) && x in h
      ensures h[x].data != delHashes[i]
    {
      StoredLeaf(h, roots, ks, slots, k, x);
    }
    forall p, x | p in sk && x in Refs(sk[p]) && x in h
      ensures h[x].data != delHashes[i]
    {
      var j :| 0 <= j < i && dels[j] == p;
    }
  }

  lemma {:induction false} MoreLeaves(h: Heap, next: Ref, ks: seq<Skel>, sk: map<nat, Skel>, dels: seq<nat>,
                                      delHashes: seq<Hash>, i: nat, m: Skel)
    requires |dels| == |delHashes| && i < |dels| && Leaves(h, sk, dels, delHashes, i) && Refs(m) == {next} && next !in h
    requires NoDuplicates(dels) && Loose(h, ks, sk)
    ensures dels[i] !in sk
    ensures Leaves(h[next := Cell(delHashes[i], NIL, NIL, NIL, true)], sk[dels[i] := m], dels, delHashes, i + 1)
  {
    hide Refs, Loose;
    var h', sk' := h[next := Cell(delHashes[i], NIL, NIL, NIL, true)], sk[dels[i] := m];
    forall j | 0 <= j < i + 1
      ensures dels[j] in sk' && forall x :: x in Refs(sk'[dels[j]]) && x in h' ==> h'[x].data == delHashes[j]
    {
      if j < i { LooseIn(h, ks, sk, dels[j]); }
    }
    forall p | p in sk'
      ensures exists j :: 0 <= j < i + 1 && dels[j] == p
    {
      if p in sk {
        var j :| 0 <= j < i && dels[j] == p;
        assert dels[j] == p;
      } else {
        assert dels[i] == p;
      }
    }
  }

  /** A node for each deleted leaf, in the map. */
  method NewNodes(h0: Heap, next0: Ref, nodeMap0: map<Hash, Ref>, dels: seq<nat>, delHashes: seq<Hash>,
                  ghost roots: seq<Ref>, ghost ks: seq<Skel>, ghost g: Layout, ghost slots: seq<Hash>,
                  ghost hashes: set<Hash>)
    returns (h: Heap, next: Ref, nodeMap: map<Hash, Ref>, nodes: seq<NodePos>, ghost sk: map<nat, Skel>)
    requires Room(h0, next0) && Linked(h0, roots, ks) && Grove(ValsOf(h0, ks), RootTrees(Erase(slots, hashes), 0))
    requires Deletes(g, slots, dels, hashes) && GoodSlots(slots) && LeavesAt(g, ForestOf(g, slots), dels, delHashes)
    requires MapRight(h0, ks, nodeMap0)
    ensures Room(h, next) && Linked(h, roots, ks) && ValsOf(h, ks) == ValsOf(h0, ks) && Loose(h, ks, sk)
    ensures PosOf(nodes) == dels && InPlace(g, ForestOf(g, slots), h, nodes, sk) && MapAll(h, ks, sk, nodeMap)
    ensures nodeMap.Keys == nodeMap0.Keys + HashSet(delHashes)
  {
    hide Deletes, GoodSlots, LayoutFor, ForestOf, At, Linked, Loose, MapAll, MapRight, Grove, RootTrees, Erase, Val,
         Refs, HashSet, InPlace, Leaves, Unknown, IsLeafHash, LeafKeys, LeavesAt, NoDuplicates;
    ghost var f := ForestOf(g, slots);
    BackHashes(g, slots, dels, delHashes, hashes);
    DeletesFacts(g, slots, dels, hashes);
    h, next, nodeMap, nodes, sk := h0, next0, nodeMap0, [], map[];
    NoneLoose(g, f, h, ks, nodeMap, dels, delHashes);
    for i := 0 to |dels|
      invariant Room(h, next) && Linked(h, roots, ks) && ValsOf(h, ks) == ValsOf(h0, ks) && Loose(h, ks, sk)
      invariant PosOf(nodes) == dels[..i] && InPlace(g, f, h, nodes, sk) && MapAll(h, ks, sk, nodeMap)
      invariant Leaves(h, sk, dels, delHashes, i) && nodeMap.Keys == nodeMap0.Keys + HashSet(delHashes[..i])
    {
      ghost var m, h1 := Skel(next, NoSkel, NoSkel), h;
      StillUnknown(h, roots, ks, sk, Erase(slots, hashes), dels, delHashes, i);
      CellsKnown(h, next, roots, ks, sk);
      MoreKnown(h, next, ks, sk, dels, delHashes, i, m);
      NewLoose(h, next, roots, ks, sk, dels[i], delHashes[i]);
      MoreLeaves(h, next, ks, sk, dels, delHashes, i, m);
      NewMapped(h, next, ks, sk, dels[i], delHashes[i], nodeMap, m);
      KeysMore(delHashes, i);
      h := h[next := Cell(delHashes[i], NIL, NIL, NIL, true)];
      LeafInPlace(g, f, h1, h, nodes, sk, dels, delHashes, i, m);
      nodes := nodes + [NodePos(dels[i], next)];
      nodeMap := nodeMap[delHashes[i] := next];
      sk := sk[dels[i] := m];
      next := next + 1;
      assert dels[..i + 1] == dels[..i] + [dels[i]];
    }
    assert dels[..|dels|] == dels && delHashes[..|delHashes|] == delHashes;
  }

  lemma {:induction false} NoneLoose(g: Layout, f: Forest, h: Heap, ks: seq<Skel>, nodeMap: map<Hash, Ref>,
                                     dels: seq<nat>, delHashes: seq<Hash>)
    requires MapRight(h, ks, nodeMap) && |dels| == |delHashes|
    ensures Loose(h, ks, map[]) && InPlace(g, f, h, [], map[]) && MapAll(h, ks, map[], nodeMap)
    ensures Leaves(h, map[], dels, delHashes, 0) && HashSet(delHashes[..0]) == {}
  {
    hide MapRight;
  }

  lemma {:induction false} CellsKnown(h: Heap, next: Ref, roots: seq<Ref>, ks: seq<Skel>, sk: map<nat, Skel>)
    requires Room(h, next) && Linked(h, roots, ks) && Loose(h, ks, sk)
    ensures (forall i :: 0 <= i < |ks| ==> Refs(ks[i]) <= h.Keys) && forall q :: q in sk ==> Refs(sk[q]) <= h.Keys
    ensures next !in h
  {
    hide Linked, Loose, Refs;
    forall i | 0 <= i < |ks|
      ensures Refs(ks[i]) <= h.Keys
    {
      LinkedIn(h, roots, ks, i);
    }
    forall q | q in sk
      ensures Refs(sk[q]) <= h.Keys
    {
      LooseIn(h, ks, sk, q);
    }
  }

  lemma {:induction false} MoreKnown(h: Heap, next: Ref, ks: seq<Skel>, sk: map<nat, Skel>, dels: seq<nat>,
                                     delHashes: seq<Hash>, i: nat, m: Skel)
    requires |dels| == |delHashes| && i < |dels| && Leaves(h, sk, dels, delHashes, i) && NoDuplicates(dels)
    requires m == Skel(next, NoSkel, NoSkel)
    ensures dels[i] !in sk && Refs(m) == {next}
  {
  }

  lemma {:induction false} LeafInPlace(g: Layout, f: Forest, h: Heap, h': Heap, nodes: seq<NodePos>, sk: map<nat, Skel>,
                                       dels: seq<nat>, delHashes: seq<Hash>, i: nat, m: Skel)
    requires InPlace(g, f, h, nodes, sk) && LeavesAt(g, f, dels, delHashes) && i < |dels| && dels[i] !in sk && m.Skel?
    requires (forall q :: q in sk ==> Val(h', sk[q]) == Val(h, sk[q]))
    requires Val(h', m) == Pol(delHashes[i], NoNode, NoNode, true)
    ensures InPlace(g, f, h', nodes + [NodePos(dels[i], m.ref)], sk[dels[i] := m])
  {
    hide IsRootNode, At, Val;
    SingleLeaf(Val(h', m));
  }

  /** A node put in before the first with a greater position. */
  function Inserted(s: seq<NodePos>, el: NodePos): (r: seq<NodePos>)
    ensures |r| == |s| + 1 && forall x :: x in r <==> x in s || x == el
  {
    var k := FirstGreater(PosOf(s), el.pos, 0);
    assert s == s[..k] + s[k..];
    s[..k] + [el] + s[k..]
  }

  lemma {:induction false} InsertedPositions(s: seq<NodePos>, el: NodePos)
    requires Ascending(PosOf(s)) && el.pos !in PosOf(s)
    ensures var k, r := FirstGreater(PosOf(s), el.pos, 0), PosOf(Inserted(s, el));
            && Ascending(r) && r == PosOf(s)[..k] + [el.pos] + PosOf(s)[k..]
            && forall x :: x in r <==> x in PosOf(s) || x == el.pos
  {
    hide Ascending, Inserted;
    var k := FirstGreater(PosOf(s), el.pos, 0);
    SpliceMembers(PosOf(s), k, el.pos);
    SpliceAscending(PosOf(s), k, el.pos);
    InsertedAt(s, el);
  }

  lemma InsertedAt(s: seq<NodePos>, el: NodePos)
    ensures var k := FirstGreater(PosOf(s), el.pos, 0);
            PosOf(Inserted(s, el)) == PosOf(s)[..k] + [el.pos] + PosOf(s)[k..]
  {
  }

  /** The library sort. */
  function SortNodes(s: seq<NodePos>): (r: seq<NodePos>)
    ensures |r| == |s| && forall x :: x in r <==> x in s
  {
    if |s| == 0 then [] else
    assert s == s[..|s| - 1] + [s[|s| - 1]];
    Inserted(SortNodes(s[..|s| - 1]), s[|s| - 1])
  }

  lemma {:induction false} SortedNodes(s: seq<NodePos>)
    requires NoDuplicates(PosOf(s))
    ensures Ascending(PosOf(SortNodes(s))) && Elems(PosOf(SortNodes(s))) == Elems(PosOf(s))
    decreases |s|
  {
    hide Inserted;
    if |s| > 0 {
      var front, last := s[..|s| - 1], s[|s| - 1];
      assert PosOf(s) == PosOf(front) + [last.pos];
      SortedNodes(front);
      assert last.pos !in PosOf(front);
      assert last.pos !in Elems(PosOf(SortNodes(front)));
      InsertedPositions(SortNodes(front), last);
      forall p
        ensures p in PosOf(SortNodes(s)) <==> p in PosOf(s)
      {
        assert p in PosOf(front) <==> p in Elems(PosOf(SortNodes(front)));
      }
    } else {
      assert PosOf(SortNodes(s)) == [];
    }
  }

  lemma InPlaceOf(g: Layout, f: Forest, h: Heap, s: seq<NodePos>, r: seq<NodePos>, sk: map<nat, Skel>)
    requires InPlace(g, f, h, s, sk) && forall x :: x in r ==> x in s
    ensures InPlace(g, f, h, r, sk)
  {
    hide IsRootNode, At, Val;
    assert forall i :: 0 <= i < |r| ==> r[i] in r;
  }

  /** A list of nodes on the way to having no twins. */
  ghost predicate Merging(g: Layout, f: Forest, d: set<nat>, h: Heap, s: seq<NodePos>, sk: map<nat, Skel>, i: nat) {
    i <= |s| && StandsFor(g, d, PosOf(s)) && Ascending(PosOf(s)) && NoTwins(PosOf(s), i) && InPlace(g, f, h, s, sk)
  }

  lemma CutPositions(s: seq<NodePos>, i: nat)
    requires i + 1 < |s|
    ensures PosOf(s[..i] + s[i + 2..]) == PosOf(s)[..i] + PosOf(s)[i + 2..]
  {
  }

  lemma NextPair(g: Layout, f: Forest, d: set<nat>, h: Heap, s: seq<NodePos>, sk: map<nat, Skel>, i: nat)
    requires Merging(g, f, d, h, s, sk, i) && i < |s| && (i + 1 < |s| ==> RightSib(s[i].pos) != s[i + 1].pos)
    ensures Merging(g, f, d, h, s, sk, i + 1)
  {
    hide StandsFor, InPlace, Ascending;
  }

  /** Two trees that are to be put back. */
  lemma {:induction false} TwinCells(g: Layout, f: Forest, h: Heap, next: Ref, ks: seq<Skel>, s: seq<NodePos>,
                                     sk: map<nat, Skel>, i: nat)
    requires Room(h, next) && Loose(h, ks, sk) && InPlace(g, f, h, s, sk) && i + 1 < |s| && s[i].pos != s[i + 1].pos
    ensures s[i].pos in sk && s[i + 1].pos in sk
    ensures var a, b := sk[s[i].pos], sk[s[i + 1].pos];
            && TwoTrees(h, a, b, next) && s[i].node == a.ref && s[i + 1].node == b.ref && a.ref in h && b.ref in h
            && IsRootNode(Val(h, a), At(g, f, s[i].pos)) && IsRootNode(Val(h, b), At(g, f, s[i + 1].pos))
            && Val(h, a).Pol? && Val(h, b).Pol? && Val(h, a).data == h[a.ref].data && Val(h, b).data == h[b.ref].data
  {
    hide Tied, Apart, Refs, Val, IsRootNode, At;
    LooseIn(h, ks, sk, s[i].pos);
    LooseIn(h, ks, sk, s[i + 1].pos);
    ValueParts(h, sk[s[i].pos]);
    ValueParts(h, sk[s[i + 1].pos]);
  }

  /** Two of the trees were joined. */
  lemma {:induction false} LooseJoined(h: Heap, h': Heap, next: Ref, roots: seq<Ref>, ks: seq<Skel>, sk: map<nat, Skel>,
                                       a: nat, b: nat, p: nat, y: Skel)
    requires Room(h, next) && Linked(h, roots, ks) && Loose(h, ks, sk) && a in sk && b in sk && a != b
    requires y.Skel? && Tied(h', y, NIL) && Apart(y) && Refs(y) == Refs(sk[a]) + Refs(sk[b]) + {next}
    requires Beyond(h, h', Refs(sk[a]) + Refs(sk[b])) && h'.Keys == h.Keys + {next}
    ensures Room(h', next + 1) && Linked(h', roots, ks) && ValsOf(h', ks) == ValsOf(h, ks)
    ensures Loose(h', ks, (sk - {a, b})[p := y])
    ensures forall q :: q in sk && q != a && q != b ==> Val(h', sk[q]) == Val(h, sk[q])
  {
    hide Tied, Apart, Refs, Val, Linked, Loose;
    var s, less := Refs(sk[a]) + Refs(sk[b]), sk - {a, b};
    LooseApart(h, ks, sk, a, b);
    CellsKnown(h, next, roots, ks, sk);
    LinkedBeyond(h, h', s, roots, ks);
    StayLoose(h, h', s, ks, sk, ks, less);
    OneLoose(h', ks, less, p, y);
  }

  lemma {:induction false} LooseApart(h: Heap, ks: seq<Skel>, sk: map<nat, Skel>, a: nat, b: nat)
    requires Loose(h, ks, sk) && a in sk && b in sk
    ensures forall i :: 0 <= i < |ks| ==> Refs(ks[i]) !! Refs(sk[a]) + Refs(sk[b])
    ensures forall p :: p in sk && p != a && p != b ==> Refs(sk[p]) !! Refs(sk[a]) + Refs(sk[b])
    ensures forall p, i :: p in sk && 0 <= i < |ks| ==> Refs(ks[i]) !! Refs(sk[p])
  {
    hide Tied, Apart, Refs;
    assert Aside(h, ks, sk[a]) && Aside(h, ks, sk[b]);
  }

  /** The map leads where it did: no leaf has moved. */
  lemma {:induction false} MapJoined(h: Heap, h': Heap, ks: seq<Skel>, sk: map<nat, Skel>, a: nat, b: nat, p: nat,
                                     y: Skel, next: Ref, nodeMap: map<Hash, Ref>)
    requires MapAll(h, ks, sk, nodeMap) && a in sk && b in sk && Refs(y) == Refs(sk[a]) + Refs(sk[b]) + {next}
    requires h'.Keys == h.Keys + {next} && next !in h && SameContents(h, h') && !IsLeafHash(h'[next].data)
    requires forall d :: d in nodeMap ==> IsLeafHash(d)
    requires (forall i :: 0 <= i < |ks| ==> Refs(ks[i]) <= h.Keys) && forall q :: q in sk ==> Refs(sk[q]) <= h.Keys
    ensures MapAll(h', ks, (sk - {a, b})[p := y], nodeMap)
  {
    hide Refs, IsLeafHash;
    var sk' := (sk - {a, b})[p := y];
    forall q, x | q in sk' && x in Refs(sk'[q]) && x in h' && h'[x].data in nodeMap
      ensures nodeMap[h'[x].data] == x
    {
      if q != p {
        assert x in Refs(sk[q]);
      } else {
        assert x in Refs(sk[a]) || x in Refs(sk[b]) || x == next;
      }
    }
  }

  /** A pair of nodes replaced by their parent. */
  lemma {:induction false} PairMerged(g: Layout, f: Forest, h: Heap, h': Heap, s: seq<NodePos>, sk: map<nat, Skel>,
                                      i: nat, p: nat, y: Skel)
    requires InPlace(g, f, h, s, sk) && i + 1 < |s| && y.Skel? && IsRootNode(Val(h', y), At(g, f, p))
    requires Ascending(PosOf(s)) && p !in PosOf(s)
    requires forall q :: q in sk && q != s[i].pos && q != s[i + 1].pos ==> Val(h', sk[q]) == Val(h, sk[q])
    ensures InPlace(g, f, h', Inserted(s[..i] + s[i + 2..], NodePos(p, y.ref)), (sk - {s[i].pos, s[i + 1].pos})[p := y])
  {
    hide IsRootNode, At, Val, Inserted, Ascending;
    var cut, el, sk' := s[..i] + s[i + 2..], NodePos(p, y.ref), (sk - {s[i].pos, s[i + 1].pos})[p := y];
    var r := Inserted(cut, el);
    forall j | 0 <= j < |r|
      ensures r[j].pos in sk' && RefOf(sk'[r[j].pos]) == r[j].node &&
              IsRootNode(Val(h', sk'[r[j].pos]), At(g, f, r[j].pos))
    {
      assert r[j] in r;
      if r[j] in cut {
        var o := CutMember(s, i, r[j]);
        OtherPosition(s, i, o, p);
      }
    }
  }

  lemma CutMember(s: seq<NodePos>, i: nat, x: NodePos) returns (o: nat)
    requires i + 1 < |s| && x in s[..i] + s[i + 2..]
    ensures o < |s| && o != i && o != i + 1 && s[o] == x
  {
    var cut := s[..i] + s[i + 2..];
    var k :| 0 <= k < |cut| && cut[k] == x;
    o := if k < i then k else k + 2;
  }

  lemma OtherPosition(s: seq<NodePos>, i: nat, o: nat, p: nat)
    requires Ascending(PosOf(s)) && p !in PosOf(s) && i + 1 < |s| && o < |s| && o != i && o != i + 1
    ensures s[o].pos != s[i].pos && s[o].pos != s[i + 1].pos && s[o].pos != p
  {
    assert PosOf(s)[o] == s[o].pos && PosOf(s)[i] == s[i].pos && PosOf(s)[i + 1] == s[i + 1].pos;
  }

  /** The tree of two twins. */
  lemma {:induction false} TwinNode(g: Layout, f: Forest, d: set<nat>, l: seq<nat>, a: nat, h: Heap, ka: Skel, kb: Skel,
                                    v: PolNode)
    requires Deletable(g, f, d) && StandsFor(g, d, l) && a in l && a % 2 == 0 && a + 1 in l
    requires ka.Skel? && kb.Skel? && ka.ref in h && kb.ref in h
    requires IsRootNode(Val(h, ka), At(g, f, a)) && IsRootNode(Val(h, kb), At(g, f, a + 1))
    requires v == Pol(ParentHash(h[ka.ref].data, h[kb.ref].data), WithNieces(Val(h, ka), Val(h, kb.l), Val(h, kb.r)),
                      WithNieces(Val(h, kb), Val(h, ka.l), Val(h, ka.r)), false)
    ensures IsRootNode(v, At(g, f, g.Up(a)))
  {
    hide Deletable, StandsFor, At, IsRootNode, Val;
    TwinTree(g, f, d, l, a);
    SwappedRoots(Val(h, ka), Val(h, kb), At(g, f, a), At(g, f, a + 1));
    ValueOf(h, ka);
    ValueOf(h, kb);
    SameKids(v, Node(At(g, f, a), At(g, f, a + 1)));
  }

  lemma SameKids(v: PolNode, t: Tree)
    requires v.Pol? && IsRootNode(Pol(v.data, v.lNiece, v.rNiece, true), t)
    ensures IsRootNode(v, t)
  {
    hide Kids;
    KidsOfAny(v, v.data, true, t);
  }

  /** Replace two twins by their parent. */
  method MergePair(h: Heap, next: Ref, nodes: seq<NodePos>, i: nat, rows: nat, ghost g: Layout, ghost f: Forest,
                   ghost d: set<nat>, ghost roots: seq<Ref>, ghost ks: seq<Skel>, ghost sk: map<nat, Skel>,
                   ghost nodeMap: map<Hash, Ref>)
    returns (h': Heap, merged: seq<NodePos>, ghost sk': map<nat, Skel>)
    requires g.m == Pow2(rows) && Deletable(g, f, d) && Room(h, next) && Linked(h, roots, ks) && Loose(h, ks, sk)
    requires MapAll(h, ks, sk, nodeMap) && forall d :: d in nodeMap ==> IsLeafHash(d)
    requires Merging(g, f, d, h, nodes, sk, i) && i + 1 < |nodes| && RightSib(nodes[i].pos) == nodes[i + 1].pos
    ensures Room(h', next + 1) && Linked(h', roots, ks) && ValsOf(h', ks) == ValsOf(h, ks) && Loose(h', ks, sk')
    ensures Merging(g, f, d, h', merged, sk', i) && |merged| == |nodes| - 1 && MapAll(h', ks, sk', nodeMap)
  {
    hide Gone, Above, Layout.WellShaped, StandsFor, At, Deletable, InPlace, NoTwins, Ascending, IsRootNode, Linked,
         Loose, MapAll, Refs, Val, Tied, Apart, Inserted, Room, IsLeafHash;
    var pn, sib := nodes[i], nodes[i + 1];
    ghost var list := PosOf(nodes);
    Cut(list, i);
    TwinsParent(g, d, list, pn.pos);
    TwinCells(g, f, h, next, ks, nodes, sk, i);
    ghost var ka, kb := sk[pn.pos], sk[sib.pos];
    var data := ParentHash(h[pn.node].data, h[sib.node].data);
    CellsKnown(h, next, roots, ks, sk);
    h' := JoinRoots(h, pn.node, sib.node, next, data, false, ka, kb);
    ghost var y := Crossed(next, 0, ka, kb);
    TwinNode(g, f, d, list, pn.pos, h, ka, kb, Val(h', y));
    InnerNotLeaf(h[pn.node].data, h[sib.node].data);
    var position := Parent(rows, pn.pos);
    LooseJoined(h, h', next, roots, ks, sk, pn.pos, sib.pos, position, y);
    MapJoined(h, h', ks, sk, pn.pos, sib.pos, position, y, next, nodeMap);
    PairMerged(g, f, h, h', nodes, sk, i, position, y);
    CutPositions(nodes, i);
    var cut := nodes[..i] + nodes[i + 2..];
    InsertedPositions(cut, NodePos(position, next));
    merged := Inserted(cut, NodePos(position, next));
    sk' := (sk - {pn.pos, sib.pos})[position := y];
    MergeTwins(g, d, list, pn.pos, PosOf(merged));
    TwinsBefore(list, i, position, PosOf(merged));
  }

  /** Merge twins, with their nodes, until none are left. */
  method DeTwinNodes(h0: Heap, next0: Ref, sorted: seq<NodePos>, rows: nat, ghost g: Layout, ghost f: Forest,
                     ghost roots: seq<Ref>, ghost ks: seq<Skel>, ghost sk0: map<nat, Skel>,
                     ghost nodeMap: map<Hash, Ref>)
    returns (h: Heap, next: Ref, nodes: seq<NodePos>, ghost sk: map<nat, Skel>)
    requires g.m == Pow2(rows) && Ascending(PosOf(sorted)) && ValidTargets(g, Elems(PosOf(sorted)))
    requires Deletable(g, f, Elems(PosOf(sorted))) && InPlace(g, f, h0, sorted, sk0)
    requires Room(h0, next0) && Linked(h0, roots, ks) && Loose(h0, ks, sk0)
    requires MapAll(h0, ks, sk0, nodeMap) && forall d :: d in nodeMap ==> IsLeafHash(d)
    ensures Room(h, next) && Linked(h, roots, ks) && ValsOf(h, ks) == ValsOf(h0, ks) && Loose(h, ks, sk)
    ensures Separate(g, PosOf(nodes)) && InPlace(g, f, h, nodes, sk) && MapAll(h, ks, sk, nodeMap)
    ensures forall p: nat :: p in PosOf(nodes) <==> Maximal(g, Elems(PosOf(sorted)), p)
  {
    hide StandsFor, ValidTargets, Deletable, Maximal, Separate, InPlace, Ascending, Linked, Loose, MapAll, Room,
         IsLeafHash, Val;
    ghost var d := Elems(PosOf(sorted));
    h, next, nodes, sk := h0, next0, sorted, sk0;
    var i := 0;
    StandsForSelf(g, PosOf(sorted));
    while i < |nodes|
      invariant 0 <= i <= |nodes| && Merging(g, f, d, h, nodes, sk, i)
      invariant Room(h, next) && Linked(h, roots, ks) && ValsOf(h, ks) == ValsOf(h0, ks) && Loose(h, ks, sk)
      invariant MapAll(h, ks, sk, nodeMap)
      decreases |nodes| - i
    {
      if i + 1 < |nodes| && RightSib(nodes[i].pos) == nodes[i + 1].pos {
        h, nodes, sk := MergePair(h, next, nodes, i, rows, g, f, d, roots, ks, sk, nodeMap);
        next := next + 1;
      } else {
        NextPair(g, f, d, h, nodes, sk, i);
        i := i + 1;
      }
    }
    Canonical(g, d, PosOf(nodes));
  }

  /** One of the trees is now part of a root. */
  lemma {:induction false} LooseLeft(h: Heap, h': Heap, next: Ref, roots: seq<Ref>, ks: seq<Skel>, sk: map<nat, Skel>,
                                     pos: nat, tree: nat, y: Skel)
    requires Room(h, next) && Linked(h, roots, ks) && Loose(h, ks, sk) && pos in sk && tree < |ks|
    requires Beyond(h, h', Refs(ks[tree]) + Refs(sk[pos])) && Refs(y) <= Refs(ks[tree]) + Refs(sk[pos]) + {next}
    ensures Loose(h', ks[tree := y], sk - {pos})
    ensures forall q :: q in sk && q != pos ==> Val(h', sk[q]) == Val(h, sk[q])
  {
    hide Tied, Apart, Refs, Val, Linked, Loose, Room;
    var less, after := sk - {pos}, ks[tree := y];
    LooseApart(h, ks, sk, pos, pos);
    CellsKnown(h, next, roots, ks, sk);
    forall p, i | p in less && 0 <= i < |after|
      ensures Refs(after[i]) !! Refs(less[p])
    {
      if i == tree { assert Refs(ks[tree]) !! Refs(sk[p]); }
    }
    StayLoose(h, h', Refs(ks[tree]) + Refs(sk[pos]), ks, sk, after, less);
  }

  lemma {:induction false} MapPut(h: Heap, h': Heap, next: Ref, roots: seq<Ref>, ks: seq<Skel>, sk: map<nat, Skel>,
                                  pos: nat, tree: nat, y: Skel, nodeMap: map<Hash, Ref>, nodeMap': map<Hash, Ref>)
    requires Room(h, next) && Linked(h, roots, ks) && Loose(h, ks, sk) && MapAll(h, ks, sk, nodeMap) && pos in sk
    requires tree < |ks| && RefOf(ks[tree]) in h && RefOf(ks[tree]) in Refs(ks[tree])
    requires MapKept(h, h', RefOf(ks[tree]), nodeMap, nodeMap') && Refs(y) <= Refs(ks[tree]) + Refs(sk[pos]) + {next}
    ensures MapAll(h', ks[tree := y], sk - {pos}, nodeMap')
  {
    hide Refs, Linked, Loose, Room;
    var less, after, root := sk - {pos}, ks[tree := y], RefOf(ks[tree]);
    CellsKnown(h, next, roots, ks, sk);
    forall i, x | 0 <= i < |after| && x in Refs(after[i]) && x in h' && h'[x].data in nodeMap'
      ensures nodeMap'[h'[x].data] == x
    {
      assert x in Refs(ks[i]) || x in Refs(sk[pos]) || x == next;
    }
    forall p, x | p in less && x in Refs(less[p]) && x in h' && h'[x].data in nodeMap'
      ensures nodeMap'[h'[x].data] == x
    {
      assert x in Refs(sk[p]);
    }
  }

  /** A node takes the place of a root. */
  lemma {:induction false} RootSet(h: Heap, roots: seq<Ref>, ks: seq<Skel>, tree: nat, m: Skel)
    requires Linked(h, roots, ks) && tree < |ks| && Aside(h, ks, m)
    ensures |roots| == |ks| && m.Skel? && Linked(h, roots[tree := m.ref], ks[tree := m])
    ensures ValsOf(h, ks[tree := m]) == ValsOf(h, ks)[tree := Val(h, m)]
  {
    hide Tied, Apart, Refs, Val;
  }

  lemma SameMap(h: Heap, root: Ref, nodeMap: map<Hash, Ref>)
    requires root in h
    ensures MapKept(h, h, root, nodeMap, nodeMap)
  {
  }

  /** Put a whole tree back. */
  method SetRoot(h: Heap, roots: seq<Ref>, p: NodePos, n: nat, ghost g: Layout, ghost f: Forest, ghost ks: seq<Skel>,
                 ghost m: Skel)
    returns (roots': seq<Ref>, ghost at: nat)
    requires Linked(h, roots, ks) && Aside(h, ks, m) && RefOf(m) == p.node
    requires LayoutFor(g, TreeRows(n), n) && AllSolid(g, f) && p.pos in g.nodes && g.IsRoot(p.pos)
    requires NodesOf(g, n, Deleted(g, f, {p.pos}), ValsOf(h, ks)) && IsRootNode(Val(h, m), At(g, f, p.pos))
    ensures at < |ks| == |roots| && roots' == roots[at := p.node]
    ensures Linked(h, roots', ks[at := m]) && NodesOf(g, n, f, ValsOf(h, ks[at := m]))
    ensures RefOf(ks[at]) in h && RefOf(ks[at]) in Refs(ks[at])
  {
    hide LayoutFor, Row, Layout.WellShaped, RootOf, AllSolid, Layout.IsRoot, NodesOf, BiggerTrees, RootList, Deleted,
         At, TreeRows, IsRootNode, Linked, Val, Refs, Tied, Apart, Aside;
    NodesCount(g, n, Deleted(g, f, {p.pos}), ValsOf(h, ks));
    LinkedCount(h, roots, ks);
    LayoutFits(g, TreeRows(n), n);
    g.NodeBound(p.pos);
    var _, tree, _, _ := DetectOffset(p.pos, n, g);
    RootAtIndex(g, n, p.pos);
    RootOfRoot(g, p.pos);
    RootPutBack(g, n, f, ValsOf(h, ks), tree, p.pos, Val(h, m));
    RootSet(h, roots, ks, tree, m);
    LinkedAt(h, roots, ks, tree);
    LinkedIn(h, roots, ks, tree);
    RefsParts(ks[tree]);
    roots', at := roots[tree := p.node], tree;
  }

  /** Put one node back. */
  method PutBack(h: Heap, next: Ref, roots: seq<Ref>, nodeMap: map<Hash, Ref>, p: NodePos, n: nat, ghost g: Layout,
                 ghost f: Forest, ghost ks: seq<Skel>, ghost sk: map<nat, Skel>)
    returns (h': Heap, next': Ref, roots': seq<Ref>, nodeMap': map<Hash, Ref>, ghost ks': seq<Skel>)
    requires Room(h, next) && Linked(h, roots, ks) && Loose(h, ks, sk) && MapAll(h, ks, sk, nodeMap)
    requires forall d :: d in nodeMap ==> IsLeafHash(d)
    requires LayoutFor(g, TreeRows(n), n) && AllSolid(g, f) && p.pos in g.nodes
    requires NodesOf(g, n, Deleted(g, f, {p.pos}), ValsOf(h, ks)) && !At(g, f, p.pos).Nil?
    requires p.pos in sk && RefOf(sk[p.pos]) == p.node && IsRootNode(Val(h, sk[p.pos]), At(g, f, p.pos))
    ensures Room(h', next') && Linked(h', roots', ks') && NodesOf(g, n, f, ValsOf(h', ks')) &&
            Loose(h', ks', sk - {p.pos})
    ensures MapAll(h', ks', sk - {p.pos}, nodeMap') && nodeMap'.Keys == nodeMap.Keys
    ensures forall q :: q in sk && q != p.pos ==> Val(h', sk[q]) == Val(h, sk[q])
  {
    hide LayoutFor, Row, Layout.WellShaped, RootOf, AllSolid, Layout.IsRoot, NodesOf, BiggerTrees, RootList, Deleted,
         At, TreeRows, IsRootNode, Linked, Loose, MapAll, Val, Refs, IsLeafHash, MapKept, Tied, Apart, Aside, Room;
    ghost var m := sk[p.pos];
    AsideOf(h, ks, sk, p.pos);
    RootTestIff(g, n, p.pos);
    ghost var at, y: Skel;
    if IsRootPositionOnRow(p.pos, n, Row(TreeRows(n), p.pos)) {
      roots', at := SetRoot(h, roots, p, n, g, f, ks, m);
      h', next', nodeMap', y := h, next, nodeMap, m;
      SameMap(h, RefOf(ks[at]), nodeMap);
    } else {
      h', nodeMap', at, y := UndoSingleDel(h, next, roots, nodeMap, p.node, p.pos, n, g, f, ks, m);
      MoreRoom(h, h', next);
      next', roots' := next + 1, roots;
      KeptKeys(h, h', RefOf(ks[at]), nodeMap, nodeMap');
    }
    ks' := ks[at := y];
    LooseLeft(h, h', next, roots, ks, sk, p.pos, at, y);
    MapPut(h, h', next, roots, ks, sk, p.pos, at, y, nodeMap, nodeMap');
  }

  lemma MoreRoom(h: Heap, h': Heap, next: Ref)
    requires Room(h, next) && h'.Keys == h.Keys + {next}
    ensures Room(h', next + 1)
  {
  }

  lemma KeptKeys(h: Heap, h': Heap, root: Ref, nodeMap: map<Hash, Ref>, nodeMap': map<Hash, Ref>)
    requires root in h && MapKept(h, h', root, nodeMap, nodeMap')
    ensures nodeMap'.Keys == nodeMap.Keys
  {
  }

  lemma AsideOf(h: Heap, ks: seq<Skel>, sk: map<nat, Skel>, p: nat)
    requires Loose(h, ks, sk) && p in sk
    ensures Aside(h, ks, sk[p]) && sk[p].Skel?
  {
    hide Tied, Apart, Refs;
  }

  /** The nodes below an index are in place when one above is put back. */
  lemma {:induction false} FewerInPlace(g: Layout, f: Forest, h: Heap, h': Heap, nodes: seq<NodePos>, i: nat,
                                        sk: map<nat, Skel>)
    requires i < |nodes| && InPlace(g, f, h, nodes[..i + 1], sk) && Ascending(PosOf(nodes))
    requires forall q :: q in sk && q != nodes[i].pos ==> Val(h', sk[q]) == Val(h, sk[q])
    ensures InPlace(g, f, h', nodes[..i], sk - {nodes[i].pos})
  {
    hide IsRootNode, At, Val;
    forall j | 0 <= j < i
      ensures nodes[j].pos in sk && nodes[j].pos != nodes[i].pos && RefOf(sk[nodes[j].pos]) == nodes[j].node
      ensures IsRootNode(Val(h', sk[nodes[j].pos]), At(g, f, nodes[j].pos))
    {
      assert PosOf(nodes)[j] == nodes[j].pos && PosOf(nodes)[i] == nodes[i].pos;
      assert nodes[..i + 1][j] == nodes[j];
    }
  }

  lemma LastInPlace(g: Layout, f: Forest, h: Heap, nodes: seq<NodePos>, i: nat, sk: map<nat, Skel>)
    requires i < |nodes| && InPlace(g, f, h, nodes[..i + 1], sk)
    ensures nodes[i].pos in sk && RefOf(sk[nodes[i].pos]) == nodes[i].node
    ensures IsRootNode(Val(h, sk[nodes[i].pos]), At(g, f, nodes[i].pos))
  {
    hide IsRootNode, At, Val;
    assert nodes[..i + 1][i] == nodes[i];
  }

  lemma {:induction false} GoneThere(g: Layout, slots: seq<Hash>, dels: seq<nat>, hashes: set<Hash>, ds: seq<nat>,
                                     i: nat)
    requires Deletes(g, slots, dels, hashes) && Largest(g, Elems(dels), ds) && i < |ds|
    ensures !At(g, ForestOf(g, slots), ds[i]).Nil?
  {
    hide Deletes, At, ForestOf, Separate, Gone;
    assert ds[i] in ds;
    assert Maximal(g, Elems(dels), ds[i]);
    LeafThere(g, slots, dels, hashes, ds[i]);
  }

  /** Put the deleted leaves back, the one at the highest position first. */
  method UndoDels(h0: Heap, next0: Ref, roots0: seq<Ref>, nodeMap0: map<Hash, Ref>, dels: seq<nat>,
                  delHashes: seq<Hash>, n: nat, ghost ks0: seq<Skel>, ghost g: Layout, ghost slots: seq<Hash>,
                  ghost hashes: set<Hash>)
    returns (h: Heap, next: Ref, roots: seq<Ref>, nodeMap: map<Hash, Ref>, ghost ks: seq<Skel>)
    requires n == |slots| && Deletes(g, slots, dels, hashes) && LeavesAt(g, ForestOf(g, slots), dels, delHashes)
    requires Room(h0, next0) && Linked(h0, roots0, ks0) && Grove(ValsOf(h0, ks0), RootTrees(Erase(slots, hashes), 0))
    requires GoodSlots(slots) && MapRight(h0, ks0, nodeMap0) && nodeMap0.Keys == LeafKeys(Erase(slots, hashes))
    ensures Room(h, next) && Linked(h, roots, ks) && Grove(ValsOf(h, ks), RootTrees(slots, 0))
    ensures MapRight(h, ks, nodeMap) && nodeMap.Keys == LeafKeys(slots)
  {
    hide LayoutFor, Deletes, NodesOf, ForestOf, AllSolid, Deleted, Deletable, Compact, ValidTargets, Separate, Maximal,
         RootTrees, Erase, Layout.WellShaped, DeletedInTurn, TreeRows, At, Layout.IsRoot, LeavesAt, Grove, IsRootNode,
         Linked, Loose, MapRight, MapAll, InPlace, Val, LeafKeys, GoodSlots, HashSet, IsLeafHash, Room, SortNodes,
         Ascending;
    ghost var f := ForestOf(g, slots);
    DeletesFacts(g, slots, dels, hashes);
    UndoneKeys(g, slots, dels, delHashes, hashes);
    var nodes;
    ghost var sk;
    roots, ks := roots0, ks0;
    h, next, nodeMap, nodes, sk := NewNodes(h0, next0, nodeMap0, dels, delHashes, roots, ks, g, slots, hashes);
    AllLeafHashes(slots, nodeMap);
    SortedNodes(nodes);
    InPlaceOf(g, f, h, nodes, SortNodes(nodes), sk);
    h, next, nodes, sk := DeTwinNodes(h, next, SortNodes(nodes), TreeRows(n), g, f, roots, ks, sk, nodeMap);
    ghost var ds := PosOf(nodes);
    assert Largest(g, Elems(dels), ds);
    SeparateNodes(g, ds);
    AllDeleted(g, slots, dels, hashes, ds, ValsOf(h, ks));
    assert ds[..|ds|] == ds && nodes[..|nodes|] == nodes;
    for i := |nodes| downto 0
      invariant Room(h, next) && Linked(h, roots, ks) && Loose(h, ks, sk) && MapAll(h, ks, sk, nodeMap)
      invariant NodesOf(g, n, DeletedInTurn(g, f, ds[..i]), ValsOf(h, ks)) && InPlace(g, f, h, nodes[..i], sk)
      invariant nodeMap.Keys == LeafKeys(slots)
    {
      InTurnSolid(g, f, ds, i);
      InTurnLast(g, f, ds, i);
      InTurnRoots(g, f, ds, i);
      StillThere(g, f, ds, i, i);
      GoneThere(g, slots, dels, hashes, ds, i);
      LastInPlace(g, f, h, nodes, i, sk);
      AllLeafHashes(slots, nodeMap);
      ghost var h1 := h;
      h, next, roots, nodeMap, ks := PutBack(h, next, roots, nodeMap, nodes[i], n, g, DeletedInTurn(g, f, ds[..i]), ks,
                                             sk);
      FewerInPlace(g, f, h1, h, nodes, i, sk);
      sk := sk - {nodes[i].pos};
    }
    InTurnNone(g, f);
    assert ds[..0] == [];
    NodesOfSlots(g, slots, ValsOf(h, ks));
    MapOfAll(h, ks, sk, nodeMap);
  }

  lemma AllLeafHashes(slots: seq<Hash>, nodeMap: map<Hash, Ref>)
    requires GoodSlots(slots) && nodeMap.Keys == LeafKeys(slots)
    ensures forall d :: d in nodeMap ==> IsLeafHash(d)
  {
    hide GoodSlots, IsLeafHash, LeafKeys;
    forall d | d in nodeMap
      ensures IsLeafHash(d)
    {
      KeyIsLeafHash(slots, d);
    }
  }

  lemma MapOfAll(h: Heap, ks: seq<Skel>, sk: map<nat, Skel>, nodeMap: map<Hash, Ref>)
    requires MapAll(h, ks, sk, nodeMap)
    ensures MapRight(h, ks, nodeMap)
  {
    hide MapRight;
  }
}
