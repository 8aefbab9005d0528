/** The pollard written to bytes and read from them, by its pointers. */
module LinkedSerialize {
  import opened Hashes
  import opened Options
  import opened Slots
  import opened Uniqueness
  import opened LeafCounts
  import opened Forests
  import opened Nieces
  import opened NiecePollard
  import opened PollardUndo
  import opened StumpState
  import opened PollardState
  import opened Cells
  import opened CellPaths
  import opened CellHashes
  import opened CellEdits
  import opened Links
  import opened LinkedAdd
  import opened LinkedUndo
  import opened LinkedPutBack
  import opened LinkedSearch
  import opened Serialize

  /** The number of nodes. */
  method CountNodes(h: Heap, x: Ref, ghost k: Skel, ghost aunt: Ref) returns (count: nat)
    requires x == RefOf(k) && Tied(h, k, aunt) && Apart(k)
    ensures count == GetCount(Val(h, k))
    decreases k
  {
    hide Tied, Apart, Val, GetCount;
    NotNil(k);
    CountParts(h, k, aunt);
    if x == NIL {
      return 0;
    }
    var l := CountNodes(h, h[x].lNiece, k.l, x);
    var r := CountNodes(h, h[x].rNiece, k.r, x);
    count := l + 1 + r;
  }

  lemma {:induction false} CountParts(h: Heap, k: Skel, aunt: Ref)
    requires Tied(h, k, aunt) && Apart(k)
    ensures k.NoSkel? ==> GetCount(Val(h, k)) == 0
    ensures k.Skel? ==>
              && k.ref in h && k.ref != NIL && h[k.ref].lNiece == RefOf(k.l) && h[k.ref].rNiece == RefOf(k.r)
              && Tied(h, k.l, k.ref) && Tied(h, k.r, k.ref) && Apart(k.l) && Apart(k.r)
              && GetCount(Val(h, k)) == GetCount(Val(h, k.l)) + 1 + GetCount(Val(h, k.r))
  {
    if k.Skel? {
      TiedParts(h, k, aunt);
      ApartParts(k);
      ValueOf(h, k);
    }
  }

  /** How many bytes a pollard takes. */
  method SerializeSize(p: Pollard) returns (size: nat)
    requires Linked(p.heap, p.roots, p.cells)
    ensures size == 34 * TotalCount(p.Nodes()) + 16
  {
    hide Linked, Val, GetCount, Tied, Apart;
    LinkedCount(p.heap, p.roots, p.cells);
    var count := 0;
    for i := 0 to |p.roots|
      invariant count == TotalCount(p.Nodes()[..i])
    {
      assert p.Nodes()[..i + 1][..i] == p.Nodes()[..i];
      LinkedAt(p.heap, p.roots, p.cells, i);
      var more := CountNodes(p.heap, p.roots[i], p.cells[i], NIL);
      count := count + more;
    }
    assert p.Nodes()[..|p.roots|] == p.Nodes();
    size := count * 32 + 16 + count * 2;
  }

  /** A node below a root, with its nieces and the node beside it. */
  lemma {:induction false} NodeParts(h: Heap, k: Skel, turns: seq<int>)
    requires k.Skel? && Tied(h, k, NIL) && Apart(k) && Whole(Val(h, k)) && SubAt(k, turns).Skel?
    ensures var a := SubAt(k, turns);
            && a.ref in h && a.ref != NIL && NodeOn(h, k, turns, a.ref)
            && Val(h, a) == Pol(h[a.ref].data, Val(h, a.l), Val(h, a.r), h[a.ref].remember)
            && h[a.ref].lNiece == RefOf(a.l) && h[a.ref].rNiece == RefOf(a.r)
            && SubAt(k, turns + [0]) == a.l && SubAt(k, turns + [1]) == a.r
            && (RefOf(a.l) != NIL <==> Val(h, a.l).Pol?) && (RefOf(a.r) != NIL <==> Val(h, a.r).Pol?)
            && (RefOf(a.l) != NIL <==> a.l.Skel?) && (RefOf(a.r) != NIL <==> a.r.Skel?)
  {
    hide Tied, Apart, Val, Whole, SubAt, Refs;
    var a := SubAt(k, turns);
    TiedIn(h, k, NIL);
    SubRefs(k, turns);
    SubTied(h, k, NIL, turns);
    TiedParts(h, a, AuntAt(k, NIL, turns));
    ApartParts(a);
    SubMore(k, turns, 0);
    SubMore(k, turns, 1);
    ValueParts(h, a);
    NotNil(a.l);
    NotNil(a.r);
    NothingThere(h, a);
  }

  /** The node beside it holds its children. */
  lemma {:induction false} HolderParts(h: Heap, k: Skel, turns: seq<int>)
    requires k.Skel? && Tied(h, k, NIL) && Apart(k) && Whole(Val(h, k)) && SubAt(k, turns).Skel?
    ensures var b := SubAt(k, OwnTurns(turns));
            b.Skel? && (DeadEnd(Val(h, b)) <==> RefOf(b.l) == NIL && RefOf(b.r) == NIL)
    ensures OwnTurns(OwnTurns(turns)) == turns
  {
    hide Tied, Apart, Val, Whole, SubAt, Refs;
    var own := OwnTurns(turns);
    if |turns| > 0 {
      var front, last := turns[..|turns| - 1], turns[|turns| - 1];
      assert turns == front + [last] && own == front + [1 - last];
      assert own[..|own| - 1] == front && own[|own| - 1] == 1 - last;
      TiedIn(h, k, NIL);
      WideFrom(h, k, turns);
      WideAt(k, front, |front|);
      assert front[..|front|] == front;
      SubMore(k, front, 1 - last);
    }
    NodeParts(h, k, own);
  }

  /** Write a node and what it holds.  That it is a leaf is seen from the node beside it, which holds its children. */
  method WriteNode(h: Heap, x: Ref, ghost k: Skel, ghost turns: seq<int>) returns (bytes: seq<Byte>)
    requires k.Skel? && Tied(h, k, NIL) && Apart(k) && Whole(Val(h, k)) && x == RefOf(SubAt(k, turns))
    requires SubAt(k, turns).Skel?
    ensures bytes == WriteOne(Val(h, SubAt(k, turns)), Val(h, SubAt(k, OwnTurns(turns))))
    decreases SubAt(k, turns)
  {
    hide Tied, Apart, Val, Whole, SubAt, NodeOn, DeadEnd, WriteOne, OwnTurns;
    ghost var a := SubAt(k, turns);
    NodeParts(h, k, turns);
    HolderParts(h, k, turns);
    OneWritten(Val(h, a), Val(h, SubAt(k, OwnTurns(turns))));
    OwnIs(turns);
    bytes := hashBytes(h[x].data);
    var lChild, rChild := GetChildren(h, x, k, OwnTurns(turns), turns);
    bytes := bytes + [if lChild == NIL && rChild == NIL then 1 else 0];
    if h[x].lNiece != NIL && h[x].rNiece != NIL {
      ghost var head := bytes;
      bytes := bytes + [1];
      OwnOfNieces(turns);
      var left := WriteNode(h, h[x].lNiece, k, turns + [0]);
      bytes := bytes + left;
      var right := WriteNode(h, h[x].rNiece, k, turns + [1]);
      bytes := bytes + right;
      Together(head, left, right);
    } else {
      bytes := bytes + [0];
    }
  }

  lemma OwnIs(turns: seq<int>)
    requires OwnTurns(OwnTurns(turns)) == turns
    ensures var own := OwnTurns(turns); turns == if |own| == 0 then [] else own[..|own| - 1] + [1 - own[|own| - 1]]
  {
  }

  lemma OneWritten(n: PolNode, holder: PolNode)
    requires n.Pol?
    ensures var mark: Byte := if DeadEnd(holder) then 1 else 0;
            var l, r := WriteOne(n.lNiece, n.rNiece), WriteOne(n.rNiece, n.lNiece);
            WriteOne(n, holder) == if n.lNiece.Pol? && n.rNiece.Pol? then hashBytes(n.data) + [mark] + ([1] + l + r)
                                   else hashBytes(n.data) + [mark] + [0]
  {
    hide DeadEnd;
  }

  lemma Together(a: seq<Byte>, l: seq<Byte>, r: seq<Byte>)
    ensures a + ([1] + l + r) == a + [1] + l + r
  {
  }

  lemma OwnOfNieces(turns: seq<int>)
    ensures OwnTurns(turns + [0]) == turns + [1] && OwnTurns(turns + [1]) == turns + [0]
  {
    assert (turns + [0])[..|turns|] == turns && (turns + [1])[..|turns|] == turns;
  }

  /** Write a pollard. */
  method WriteTo(p: Pollard, ghost slots: seq<Hash>) returns (bytes: seq<Byte>, total: nat)
    requires p.Represents(slots)
    ensures bytes == Saved(p.numLeaves, p.numDels, p.Nodes()) && total == |bytes| == 34 * TotalCount(p.Nodes()) + 16
    ensures forall i :: 0 <= i < 8 ==> bytes[i] == ByteOf(p.numLeaves, i) && bytes[8 + i] == ByteOf(p.numDels, i)
    ensures Recorded(bytes, 16, AllRecords(p.Nodes()))
  {
    hide Recorded, RootTrees, LeafKeys, Vacant, WriteOne, Whole, GetCount, LittleEndian, ByteOf, IsRootNode, Linked,
         Val, Tied, Apart, SubAt, MapRight, GoodSlots;
    LinkedCount(p.heap, p.roots, p.cells);
    bytes := LittleEndian(p.numLeaves, 8);
    total := 8;
    bytes := bytes + LittleEndian(p.numDels, 8);
    total := total + 8;
    ghost var head := bytes;
    for i := 0 to |p.roots|
      invariant bytes == head + WriteRoots(p.Nodes()[..i]) && total == |bytes| == 34 * TotalCount(p.Nodes()[..i]) + 16
    {
      assert p.Nodes()[..i + 1][..i] == p.Nodes()[..i];
      RootWhole(p.Nodes()[i], RootTrees(slots, 0)[i]);
      WrittenSize(p.Nodes()[i], p.Nodes()[i]);
      LinkedAt(p.heap, p.roots, p.cells, i);
      SubNone(p.cells[i]);
      var one := WriteNode(p.heap, p.roots[i], p.cells[i], []);
      bytes := bytes + one;
      total := total + |one|;
    }
    assert p.Nodes()[..|p.roots|] == p.Nodes();
    CounterBytes(p.numLeaves, p.numDels, WriteRoots(p.Nodes()));
    assert bytes == LittleEndian(p.numLeaves, 8) + LittleEndian(p.numDels, 8) + WriteRoots(p.Nodes());
    GroveWhole(p.Nodes(), RootTrees(slots, 0));
    assert bytes[16..16 + |WriteRoots(p.Nodes())|] == WriteRoots(p.Nodes());
    RootRecords(bytes, 16, p.Nodes());
  }

  lemma {:induction false} GroveWhole(roots: seq<PolNode>, trees: seq<Tree>)
    requires Grove(roots, trees)
    ensures forall i :: 0 <= i < |roots| ==> Whole(roots[i])
  {
    hide Whole, IsRootNode;
    forall i | 0 <= i < |roots|
      ensures Whole(roots[i])
    {
      RootWhole(roots[i], trees[i]);
    }
  }

  lemma {:induction false} CounterBytes(numLeaves: nat, numDels: nat, rest: seq<Byte>)
    ensures var bytes := LittleEndian(numLeaves, 8) + LittleEndian(numDels, 8) + rest;
            forall i :: 0 <= i < 8 ==> bytes[i] == ByteOf(numLeaves, i) && bytes[8 + i] == ByteOf(numDels, i)
  {
    hide LittleEndian, ByteOf;
    forall i | 0 <= i < 8
      ensures LittleEndian(numLeaves, 8)[i] == ByteOf(numLeaves, i) && LittleEndian(numDels, 8)[i] == ByteOf(numDels, i)
    {
      ByteAt(numLeaves, 8, i);
      ByteAt(numDels, 8, i);
    }
  }

  /** A node that has been read: its cells are new but for its own, and the map leads to some of them. */
  ghost predicate ReadInto(h0: Heap, nodeMap0: map<Hash, Ref>, n: Ref, aunt: Ref, h: Heap, next: Ref,
                           nodeMap: map<Hash, Ref>, k: Skel)
  {
    && Room(h, next) && k.Skel? && k.ref == n && Apart(k) && Tied(h, k, aunt) && Beyond(h0, h, {n})
    && Refs(k) <= {n} + (h.Keys - h0.Keys)
    && forall d :: d in nodeMap ==>
         || (d in nodeMap0 && nodeMap[d] == nodeMap0[d])
         || (nodeMap[d] in Refs(k) && nodeMap[d] in h && h[nodeMap[d]].data == d)
  }

  lemma {:induction false} LeafRead(h0: Heap, next: Ref, nodeMap0: map<Hash, Ref>, n: Ref, aunt: Ref, data: Hash,
                                    marked: bool)
    requires Room(h0, next) && n in h0 && n != NIL
    ensures var h, k := h0[n := Cell(data, NIL, NIL, aunt, false)], Skel(n, NoSkel, NoSkel);
            && ReadInto(h0, nodeMap0, n, aunt, h, next, if marked then nodeMap0[data := n] else nodeMap0, k)
            && Val(h, k) == Pol(data, NoNode, NoNode, false)
  {
    var h, k := h0[n := Cell(data, NIL, NIL, aunt, false)], Skel(n, NoSkel, NoSkel);
    assert Refs(k) == {n};
    assert Apart(k);
    assert Tied(h, k, aunt);
  }

  /** The two nieces of a node, read one after the other. */
  ghost predicate TwoRead(h0: Heap, n: Ref, aunt: Ref, data: Hash, h1: Heap, h2: Heap, l: Ref, kl: Skel,
                          nodeMap1: map<Hash, Ref>, nodeMap2: map<Hash, Ref>, h3: Heap, h: Heap, r: Ref, kr: Skel,
                          next: Ref, nodeMap: map<Hash, Ref>)
  {
    && Room(h0, l) && n in h0 && n != NIL && n in h2
    && h1 == h0[n := Cell(data, l, NIL, aunt, false)][l := Cell(Empty, NIL, NIL, n, false)]
    && ReadInto(h1, nodeMap1, l, n, h2, r, nodeMap2, kl)
    && h3 == h2[n := h2[n].(rNiece := r)][r := Cell(Empty, NIL, NIL, n, false)]
    && ReadInto(h3, nodeMap2, r, n, h, next, nodeMap, kr)
  }

  /** A niece that was read. */
  lemma {:induction false} NieceRead(h0: Heap, n: Ref, c: Cell, h1: Heap, h2: Heap, l: Ref, k: Skel, next: Ref,
                                     nodeMap1: map<Hash, Ref>, nodeMap2: map<Hash, Ref>)
    requires Room(h0, l) && n in h0 && h1 == h0[n := c][l := Cell(Empty, NIL, NIL, n, false)]
    requires ReadInto(h1, nodeMap1, l, n, h2, next, nodeMap2, k)
    ensures k.Skel? && k.ref == l && Apart(k) && Tied(h2, k, n) && n !in Refs(k) && Refs(k) <= h2.Keys
    ensures Refs(k) <= h2.Keys - h0.Keys && n in h2 && h2[n] == c && Beyond(h0, h2, {n}) && Room(h2, next)
  {
    hide Tied, Apart, Refs;
    TiedIn(h2, k, n);
  }

  lemma {:induction false} ReadApart(h0: Heap, n: Ref, aunt: Ref, data: Hash, h1: Heap, h2: Heap, l: Ref, kl: Skel,
                                     nodeMap1: map<Hash, Ref>, nodeMap2: map<Hash, Ref>, h3: Heap, h: Heap, r: Ref,
                                     kr: Skel, next: Ref, nodeMap: map<Hash, Ref>)
    requires TwoRead(h0, n, aunt, data, h1, h2, l, kl, nodeMap1, nodeMap2, h3, h, r, kr, next, nodeMap)
    ensures kl.Skel? && kr.Skel? && kl.ref == l && kr.ref == r && Apart(kl) && Apart(kr) && Refs(kl) !! Refs(kr)
    ensures n != NIL && n !in Refs(kl) && n !in Refs(kr) && Refs(kl) + Refs(kr) <= h.Keys - h0.Keys
    ensures n in h && h[n] == Cell(data, l, r, aunt, false) && Beyond(h0, h, {n}) && Room(h, next)
    ensures Refs(kl) <= h2.Keys && forall x :: x in Refs(kl) ==> x in h && h[x] == h2[x]
    ensures Tied(h, kl, n) && Tied(h, kr, n) && Val(h, kl) == Val(h2, kl)
  {
    hide Tied, Apart, Refs, Val, ReadInto, Room;
    NieceRead(h0, n, Cell(data, l, NIL, aunt, false), h1, h2, l, kl, r, nodeMap1, nodeMap2);
    NieceRead(h2, n, Cell(data, l, r, aunt, false), h3, h, r, kr, next, nodeMap2, nodeMap);
    KeepTied(h2, h, {n}, kl, n);
  }

  /** A node whose two nieces were read. */
  lemma {:induction false} PairRead(h0: Heap, nodeMap0: map<Hash, Ref>, n: Ref, aunt: Ref, data: Hash, h1: Heap,
                                    h2: Heap, l: Ref, kl: Skel, nodeMap1: map<Hash, Ref>, nodeMap2: map<Hash, Ref>,
                                    h3: Heap, h: Heap, r: Ref, kr: Skel, next: Ref, nodeMap: map<Hash, Ref>)
    requires TwoRead(h0, n, aunt, data, h1, h2, l, kl, nodeMap1, nodeMap2, h3, h, r, kr, next, nodeMap)
    requires forall d :: d in nodeMap1 ==>
               (d in nodeMap0 && nodeMap1[d] == nodeMap0[d]) || (nodeMap1[d] == n && d == data)
    ensures var k := Skel(n, kl, kr);
            ReadInto(h0, nodeMap0, n, aunt, h, next, nodeMap, k) &&
                Val(h, k) == Pol(data, Val(h2, kl), Val(h, kr), false)
  {
    hide Tied, Apart, Refs, Val, TwoRead;
    var k := Skel(n, kl, kr);
    ReadApart(h0, n, aunt, data, h1, h2, l, kl, nodeMap1, nodeMap2, h3, h, r, kr, next, nodeMap);
    RefsParts(k);
    ApartParts(k);
    TiedParts(h, k, aunt);
    ValueOf(h, k);
    forall d | d in nodeMap
      ensures (d in nodeMap0 && nodeMap[d] == nodeMap0[d]) ||
              (nodeMap[d] in Refs(k) && nodeMap[d] in h && h[nodeMap[d]].data == d)
    {
      MapStep(h0, n, aunt, data, h1, h2, l, kl, nodeMap1, nodeMap2, h3, h, r, kr, next, nodeMap, d);
    }
  }

  lemma {:induction false} MapStep(h0: Heap, n: Ref, aunt: Ref, data: Hash, h1: Heap, h2: Heap, l: Ref, kl: Skel,
                                   nodeMap1: map<Hash, Ref>, nodeMap2: map<Hash, Ref>, h3: Heap, h: Heap, r: Ref,
                                   kr: Skel, next: Ref, nodeMap: map<Hash, Ref>, d: Hash)
    requires TwoRead(h0, n, aunt, data, h1, h2, l, kl, nodeMap1, nodeMap2, h3, h, r, kr, next, nodeMap) && d in nodeMap
    requires Refs(kl) <= h2.Keys && forall x :: x in Refs(kl) ==> x in h && h[x] == h2[x]
    ensures || (d in nodeMap1 && nodeMap[d] == nodeMap1[d])
            || (nodeMap[d] in Refs(kl) + Refs(kr) && nodeMap[d] in h && h[nodeMap[d]].data == d)
  {
    hide Tied, Apart, Refs, Val;
  }

  /** What the next node of a stream is. */
  lemma {:induction false} ReadSteps(s: seq<Byte>)
    requires |s| > 0
    ensures var size := if |s| < 32 then |s| else 32;
            var data, s1 := bytesHash(Padded(s[..size])), s[size..];
            && (|s1| < 2 ==> ReadOne(s).Broken?)
            && (|s1| >= 2 ==>
                  var leaves := if s1[0] == 1 && data != Empty then {data} else {};
                  if s1[1] == 1 then
                    && (ReadOne(s1[2..]).Broken? ==> ReadOne(s).Broken?)
                    && (ReadOne(s1[2..]).Read? ==>
                          var left := ReadOne(s1[2..]);
                          var right := ReadOne(left.rest);
                          && (right.Broken? ==> ReadOne(s).Broken?)
                          && (right.Read? ==>
                                ReadOne(s) == Read(Pol(data, left.node, right.node, false),
                                                   leaves + left.leaves + right.leaves, right.rest)))
                  else ReadOne(s) == Read(Pol(data, NoNode, NoNode, false), leaves, s1[2..]))
  {
  }

  /** Read a node and what it holds into a cell, with new cells for its nieces. */
  method ReadNode(h0: Heap, next0: Ref, nodeMap0: map<Hash, Ref>, n: Ref, s: seq<Byte>)
    returns (ok: bool, h: Heap, next: Ref, nodeMap: map<Hash, Ref>, rest: seq<Byte>, ghost k: Skel)
    requires Room(h0, next0) && n in h0 && n != NIL && h0[n] == Cell(Empty, NIL, NIL, h0[n].aunt, false)
    ensures ok <==> ReadOne(s).Read?
    ensures ok ==> ReadInto(h0, nodeMap0, n, h0[n].aunt, h, next, nodeMap, k) && Val(h, k) == ReadOne(s).node
    ensures ok ==> rest == ReadOne(s).rest && nodeMap.Keys == nodeMap0.Keys + ReadOne(s).leaves
    decreases |s|
  {
    hide ReadOne, ReadInto, Val, Padded;
    ghost var aunt := h0[n].aunt;
    ok, h, next, nodeMap, rest, k := true, h0, next0, nodeMap0, s, Skel(n, NoSkel, NoSkel);
    if |s| == 0 {
      LeafRead(h0, next0, nodeMap0, n, aunt, Empty, false);
      assert h0 == h0[n := Cell(Empty, NIL, NIL, aunt, false)];
      NothingRead(s);
      return;
    }
    ReadSteps(s);
    var size := if |s| < 32 then |s| else 32;
    var data := bytesHash(Padded(s[..size]));
    rest := s[size..];
    h := h[n := h[n].(data := data)];
    if |rest| < 2 {
      ok := false;
      return;
    }
    var leaf := rest[0] == 1 && data != Empty;
    if leaf {
      nodeMap := nodeMap[data := n];
    }
    ghost var nodeMap1 := nodeMap;
    if rest[1] == 1 {
      rest := rest[2..];
      var l := next;
      h := h[n := h[n].(lNiece := l)][l := Cell(Empty, NIL, NIL, n, false)];
      ghost var h1 := h;
      LeftReady(h0, n, aunt, data, h1, l);
      ghost var kl;
      ok, h, next, nodeMap, rest, kl := ReadNode(h, next + 1, nodeMap, l, rest);
      if !ok {
        return;
      }
      ghost var h2, nodeMap2 := h, nodeMap;
      NieceRead(h0, n, Cell(data, l, NIL, aunt, false), h1, h2, l, kl, next, nodeMap1, nodeMap2);
      var r := next;
      h := h[n := h[n].(rNiece := r)][r := Cell(Empty, NIL, NIL, n, false)];
      ghost var h3 := h;
      ghost var kr;
      ok, h, next, nodeMap, rest, kr := ReadNode(h, next + 1, nodeMap, r, rest);
      if !ok {
        return;
      }
      PairRead(h0, nodeMap0, n, aunt, data, h1, h2, l, kl, nodeMap1, nodeMap2, h3, h, r, kr, next, nodeMap);
      k := Skel(n, kl, kr);
    } else {
      rest := rest[2..];
      LeafRead(h0, next0, nodeMap0, n, aunt, data, leaf);
    }
  }

  lemma LeftReady(h0: Heap, n: Ref, aunt: Ref, data: Hash, h1: Heap, l: Ref)
    requires Room(h0, l) && n in h0 && h0[n] == Cell(Empty, NIL, NIL, aunt, false)
    requires h1 == h0[n := Cell(data, l, NIL, aunt, false)][l := Cell(Empty, NIL, NIL, n, false)]
    ensures Room(h1, l + 1) && l in h1 && h1[l].aunt == n && h1[l] == Cell(Empty, NIL, NIL, n, false)
  {
  }

  lemma NothingRead(s: seq<Byte>)
    requires |s| == 0
    ensures ReadOne(s) == Read(Pol(Empty, NoNode, NoNode, false), {}, s)
  {
  }

  /** One more root was read. */
  lemma {:induction false} RootRead(h0: Heap, next0: Ref, roots: seq<Ref>, ks: seq<Skel>, nodeMap0: map<Hash, Ref>,
                                    h1: Heap, h: Heap, next: Ref, nodeMap: map<Hash, Ref>, k: Skel)
    requires Room(h0, next0) && Linked(h0, roots, ks) && MapInto(h0, ks, nodeMap0)
    requires h1 == h0[next0 := Cell(Empty, NIL, NIL, NIL, false)]
    requires ReadInto(h1, nodeMap0, next0, NIL, h, next, nodeMap, k)
    ensures Room(h, next) && Linked(h, roots + [next0], ks + [k]) && MapInto(h, ks + [k], nodeMap)
    ensures ValsOf(h, ks + [k]) == ValsOf(h0, ks) + [Val(h, k)]
  {
    hide Tied, Apart, Refs, Val, Linked, CellOf;
    NotInUse(h0, next0, roots, ks);
    forall i | 0 <= i < |ks|
      ensures Refs(ks[i]) !! Refs(k)
    {
      LinkedIn(h0, roots, ks, i);
    }
    LinkedBeyond(h0, h, {next0}, roots, ks);
    LinkedMore(h, roots, ks, k);
    forall d | d in nodeMap
      ensures nodeMap[d] in h && h[nodeMap[d]].data == d && CellOf(ks + [k], nodeMap[d])
    {
      if d in nodeMap0 && nodeMap[d] == nodeMap0[d] {
        OldCell(h0, h, next0, roots, ks, k, nodeMap[d]);
      } else {
        LastCell(ks, k, nodeMap[d]);
      }
    }
  }

  lemma {:induction false} OldCell(h0: Heap, h: Heap, next: Ref, roots: seq<Ref>, ks: seq<Skel>, k: Skel, x: Ref)
    requires Linked(h0, roots, ks) && Room(h0, next) && CellOf(ks, x) && Beyond(h0, h, {next})
    ensures CellOf(ks + [k], x) && x in h0 && x in h && h[x] == h0[x]
  {
    hide Linked, Refs;
    var i :| 0 <= i < |ks| && x in Refs(ks[i]);
    LinkedIn(h0, roots, ks, i);
    assert (ks + [k])[i] == ks[i];
  }

  lemma LastCell(ks: seq<Skel>, k: Skel, x: Ref)
    requires x in Refs(k)
    ensures CellOf(ks + [k], x)
  {
    hide Refs;
    assert (ks + [k])[|ks|] == k;
  }

  /** Read a pollard.  It is refused when the stream ends too early, or the number of leaves is not right. */
  method RestorePollardFrom(s: seq<Byte>) returns (total: nat, p: Pollard?)
    ensures p == null <==> Restore(s).Refused?
    ensures p != null ==> fresh(p) && total == |s| - |Restore(s).rest| &&
                          Restore(s) == Restored(p.numLeaves, p.numDels, p.Nodes(), p.nodeMap.Keys, Restore(s).rest)
    ensures p != null ==>
              && |s| > 8 && p.numLeaves == ByteSum(s, 8)
              && p.numDels == ByteSum(s[8..], if |s| < 16 then |s| - 8 else 8)
    ensures p != null ==>
              Room(p.heap, p.next) && Linked(p.heap, p.roots, p.cells) && MapInto(p.heap, p.cells, p.nodeMap)
    ensures p != null ==>
              |p.roots| == NumRoots(p.numLeaves) && |p.nodeMap| + p.numDels == p.numLeaves && Empty !in p.nodeMap
    ensures p != null ==>
              forall i :: 0 <= i < |p.roots| ==>
                p.Nodes()[i].Pol? && Whole(p.Nodes()[i]) && Stripped(p.Nodes()[i]) == p.Nodes()[i]
  {
    hide ReadOne, ReadNumber, ByteSum, NumRoots, ReadRoots, Whole, Stripped, Linked, MapInto, Room, Val, ReadInto;
    total, p := 0, null;
    var rest := s;
    if |rest| == 0 {
      return;
    }
    var numLeaves := ReadNumber(rest);
    NumberIsSum(rest);
    rest := AfterNumber(rest);
    if |rest| == 0 {
      return |s| - |rest|, null;
    }
    var numDels := ReadNumber(rest);
    NumberIsSum(rest);
    rest := AfterNumber(rest);
    var k := NumRoots(numLeaves);
    var h: Heap, next: Ref, roots: seq<Ref>, nodeMap: map<Hash, Ref> := map[], 1, [], map[];
    ghost var ks: seq<Skel> := [];
    NothingYet();
    ghost var start := rest;
    assert ValsOf(h, ks) == [] && nodeMap.Keys == {};
    for i := 0 to k
      invariant ReadRoots(rest, k - i, numLeaves, numDels, ValsOf(h, ks), nodeMap.Keys) ==
                ReadRoots(start, k, numLeaves, numDels, [], {})
      invariant |rest| <= |s| && |roots| == |ks| == i && Empty !in nodeMap
      invariant Room(h, next) && Linked(h, roots, ks) && MapInto(h, ks, nodeMap)
      invariant forall j :: 0 <= j < i ==>
                  ValsOf(h, ks)[j].Pol? && Whole(ValsOf(h, ks)[j]) && Stripped(ValsOf(h, ks)[j]) == ValsOf(h, ks)[j]
    {
      ReadFacts(rest);
      ReadRootsStep(rest, k - i, numLeaves, numDels, ValsOf(h, ks), nodeMap.Keys);
      var n := next;
      ghost var h0, nodeMap0, vals := h, nodeMap, ValsOf(h, ks);
      h := h[n := Cell(Empty, NIL, NIL, NIL, false)];
      RootReady(h0, n, h);
      ghost var h1 := h;
      ghost var y;
      var ok;
      total := |s| - |rest|;
      ok, h, next, nodeMap, rest, y := ReadNode(h, next + 1, nodeMap, n, rest);
      if !ok {
        return;
      }
      RootRead(h0, n, roots, ks, nodeMap0, h1, h, next, nodeMap, y);
      roots, ks := roots + [n], ks + [y];
      assert forall j :: 0 <= j < i ==> ValsOf(h, ks)[j] == vals[j];
    }
    ReadRootsEnd(rest, numLeaves, numDels, ValsOf(h, ks), nodeMap.Keys);
    total := |s| - |rest|;
    var expected: int := (numLeaves as int) - (numDels as int);
    SameSize(nodeMap);
    if |nodeMap| != expected {
      return;
    }
    p := new Pollard();
    p.heap, p.next, p.roots, p.nodeMap, p.numLeaves, p.numDels := h, next, roots, nodeMap, numLeaves, numDels;
    p.cells := ks;
  }

  lemma NothingYet()
    ensures Room(map[], 1) && Linked(map[], [], []) && MapInto(map[], [], map[])
  {
  }

  lemma RootReady(h0: Heap, n: Ref, h: Heap)
    requires Room(h0, n) && h == h0[n := Cell(Empty, NIL, NIL, NIL, false)]
    ensures Room(h, n + 1) && n in h && n != NIL
  {
  }

  lemma {:induction false} SameSize(m: map<Hash, Ref>)
    ensures |m| == |m.Keys|
  {
  }

  /** Write a pollard and read it: the nodes are the same but for the flags, and the pointers and the map fit again. */
  method WriteThenRestore(p: Pollard, ghost slots: seq<Hash>) returns (q: Pollard?)
    requires p.Represents(slots) && GoodSlots(slots) && p.numLeaves < Power256(8)
    requires forall i :: 0 <= i < |p.Nodes()| ==> AllReadBack(p.Nodes()[i])
    ensures q != null && q.Represents(slots) && q.Nodes() == StrippedAll(p.Nodes())
    ensures q.nodeMap.Keys == p.nodeMap.Keys && q.numLeaves == p.numLeaves && q.numDels == p.numDels
  {
    hide GoodSlots, RootTrees, AllReadBack, Power256, Saved, Restore, StrippedAll, LeafKeys, Vacant, Grove, Linked,
         MapRight, MapInto, Room, Val;
    var bytes, _ := WriteTo(p, slots);
    RoundTrip(slots, p.Nodes());
    var total;
    total, q := RestorePollardFrom(bytes);
    StrippedGrove(p.Nodes(), RootTrees(slots, 0));
    Shapes(|slots|, 0);
    IntoIsRight(q.heap, q.roots, q.cells, ShapeOf(|slots|), slots, q.nodeMap);
  }
}
