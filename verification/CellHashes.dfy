/** Hashing the ancestors of a change in the pollard. */
module CellHashes {
  import opened Hashes
  import opened Nieces
  import opened NieceEdits
  import opened Cells
  import opened CellPaths

  ghost function DataAt(h: Heap, k: Skel): Hash {
    if k.Skel? && k.ref in h then h[k.ref].data else Empty
  }

  /** The heap with the hashes made new, from the end of some turns up: of the children held by `y`, whose hash `x` has,
      and of those held further down first. */
  ghost function HashFrom(h: Heap, y: Skel, x: Ref, turns: seq<int>): Heap
    decreases |turns|
  {
    var h1 := if |turns| == 0 then h else HashFrom(h, Nk(y, turns[0]), RefOf(Nk(y, 1 - turns[0])), turns[1..]);
    if x in h1 && y.Skel? then h1[x := h1[x].(data := ParentHash(DataAt(h1, y.l), DataAt(h1, y.r)))] else h1
  }

  /** At every turn there are two nieces. */
  ghost predicate Wide(k: Skel, turns: seq<int>) {
    k.Skel? && k.l.Skel? && k.r.Skel? && (|turns| > 0 ==> Wide(Nk(k, turns[0]), turns[1..]))
  }

  lemma {:induction false} WideAt(k: Skel, turns: seq<int>, i: nat)
    requires Wide(k, turns) && i <= |turns|
    ensures var y := SubAt(k, turns[..i]); y.Skel? && y.l.Skel? && y.r.Skel?
    decreases |turns|
  {
    if i > 0 {
      WideAt(Nk(k, turns[0]), turns[1..], i - 1);
      assert turns[..i][1..] == turns[1..][..i - 1];
    }
  }

  /** Only hashes differ. */
  ghost predicate OnlyData(h: Heap, h': Heap, s: set<Ref>) {
    && h.Keys == h'.Keys
    && forall x :: x in h ==> if x in s then h'[x] == h[x].(data := h'[x].data) else h'[x] == h[x]
  }

  lemma {:induction false} SameTies(h: Heap, h': Heap, s: set<Ref>, k: Skel, aunt: Ref)
    requires OnlyData(h, h', s)
    ensures Tied(h, k, aunt) <==> Tied(h', k, aunt)
    decreases k
  {
    if k.Skel? {
      SameTies(h, h', s, k.l, k.ref);
      SameTies(h, h', s, k.r, k.ref);
    }
  }

  /** A node with hashes made new along some turns: what it holds, and the hash of that. */
  datatype Fresh = Fresh(l: PolNode, r: PolNode, data: Hash)

  function WithHash(n: PolNode, data: Hash): PolNode {
    if n.Pol? then n.(data := data) else NoNode
  }

  function FreshPair(turn: int, n: PolNode, s: PolNode): Fresh {
    var l, r := if turn % 2 == 0 then n else s, if turn % 2 == 0 then s else n;
    Fresh(l, r, ParentHash(DataOf(l), DataOf(r)))
  }

  function Rehash(v: PolNode, turns: seq<int>): Fresh
    decreases |turns|
  {
    if |turns| == 0 then Fresh(Niece(v, 0), Niece(v, 1), ParentHash(DataOf(Niece(v, 0)), DataOf(Niece(v, 1))))
    else
      var n, s := Niece(v, turns[0]), Niece(v, 1 - turns[0]);
      var below := Rehash(n, turns[1..]);
      FreshPair(turns[0], WithNieces(n, below.l, below.r), WithHash(s, below.data))
  }

  /** What hashing does: hashes differ at `x` and below `y`, and below `y` they are made new. */
  lemma {:induction false} HashFromFacts(h: Heap, y: Skel, x: Ref, turns: seq<int>)
    requires Apart(y) && Wide(y, turns) && Refs(y) <= h.Keys && x in h && x !in Refs(y.l) + Refs(y.r)
    ensures var h', e := HashFrom(h, y, x, turns), Rehash(Val(h, y), turns);
            && OnlyData(h, h', {x} + Refs(y.l) + Refs(y.r))
            && Val(h', y.l) == e.l && Val(h', y.r) == e.r && h'[x].data == e.data
    decreases |turns|
  {
    hide Val, Refs, Apart, Rehash, HashFrom, Wide;
    WideParts(y, turns);
    RefsParts(y);
    ApartParts(y);
    ValueParts(h, y);
    RehashParts(Val(h, y), turns);
    HashFromParts(h, y, x, turns);
    var h';
    if |turns| == 0 {
      h' := HashFrom(h, y, x, turns);
      OneHash(h, h', {x}, y.l);
      OneHash(h, h', {x}, y.r);
    } else {
      var n, s := Nk(y, turns[0]), Nk(y, 1 - turns[0]);
      NiecesApart(y, turns[0]);
      WideParts(n, turns[1..]);
      RefsParts(n);
      ApartParts(n);
      RefsParts(s);
      ApartParts(s);
      HashFromFacts(h, n, s.ref, turns[1..]);
      var h1 := HashFrom(h, n, s.ref, turns[1..]);
      BelowHashed(h, h1, n, s, turns[1..]);
      h' := HashFrom(h, y, x, turns);
      OneHash(h1, h', {x}, y.l);
      OneHash(h1, h', {x}, y.r);
    }
  }

  lemma WideParts(k: Skel, turns: seq<int>)
    requires Wide(k, turns)
    ensures k.Skel? && k.l.Skel? && k.r.Skel? && (|turns| > 0 ==> Wide(Nk(k, turns[0]), turns[1..]))
  {
  }

  lemma ValueParts(h: Heap, k: Skel)
    requires k.Skel? && Refs(k) <= h.Keys
    ensures k.ref in h && Val(h, k) == Pol(h[k.ref].data, Val(h, k.l), Val(h, k.r), h[k.ref].remember)
    ensures Refs(k.l) <= h.Keys && Refs(k.r) <= h.Keys
    ensures k.l.Skel? ==> k.l.ref in h && Val(h, k.l).Pol? && Val(h, k.l).data == h[k.l.ref].data
    ensures k.r.Skel? ==> k.r.ref in h && Val(h, k.r).Pol? && Val(h, k.r).data == h[k.r.ref].data
  {
  }

  lemma RehashParts(v: PolNode, turns: seq<int>)
    ensures |turns| == 0 ==>
              Rehash(v, turns) == Fresh(Niece(v, 0), Niece(v, 1), ParentHash(DataOf(Niece(v, 0)), DataOf(Niece(v, 1))))
    ensures |turns| > 0 ==>
              var n, s, below := Niece(v, turns[0]), Niece(v, 1 - turns[0]), Rehash(Niece(v, turns[0]), turns[1..]);
              Rehash(v, turns) == FreshPair(turns[0], WithNieces(n, below.l, below.r), WithHash(s, below.data))
  {
  }

  lemma HashFromParts(h: Heap, y: Skel, x: Ref, turns: seq<int>)
    ensures var h1 := if |turns| == 0 then h
                      else HashFrom(h, Nk(y, turns[0]), RefOf(Nk(y, 1 - turns[0])), turns[1..]);
            HashFrom(h, y, x, turns) ==
            if x in h1 && y.Skel? then h1[x := h1[x].(data := ParentHash(DataAt(h1, y.l), DataAt(h1, y.r)))] else h1
  {
  }

  lemma {:induction false} NiecesApart(y: Skel, turn: int)
    requires Apart(y) && y.Skel? && y.l.Skel? && y.r.Skel?
    ensures Refs(Nk(y, turn)) !! Refs(Nk(y, 1 - turn)) && Refs(y) == {y.ref} + Refs(Nk(y, turn)) + Refs(Nk(y, 1 - turn))
    ensures Apart(Nk(y, turn)) && Apart(Nk(y, 1 - turn))
    ensures turn % 2 == 0 ==> Nk(y, turn) == y.l && Nk(y, 1 - turn) == y.r
    ensures turn % 2 != 0 ==> Nk(y, turn) == y.r && Nk(y, 1 - turn) == y.l
  {
    hide Refs, Apart;
    ApartParts(y);
    RefsParts(y);
  }

  lemma {:induction false} OneHash(h: Heap, h': Heap, s: set<Ref>, k: Skel)
    requires OnlyData(h, h', s) && Refs(k) !! s
    ensures Val(h', k) == Val(h, k)
  {
    hide Val, Refs;
    SameBelow(h, h', k, NIL);
  }

  /** The two nieces after hashing below one of them. */
  lemma {:induction false} BelowHashed(h: Heap, h1: Heap, n: Skel, s: Skel, turns: seq<int>)
    requires n.Skel? && s.Skel? && Refs(n) !! Refs(s) && Apart(n) && Apart(s) && Refs(n) <= h.Keys && Refs(s) <= h.Keys
    requires OnlyData(h, h1, {s.ref} + Refs(n.l) + Refs(n.r))
    requires var e := Rehash(Val(h, n), turns);
             && Val(h1, n.l) == e.l && Val(h1, n.r) == e.r && s.ref in h1 && h1[s.ref].data == e.data
    ensures var e := Rehash(Val(h, n), turns);
            Val(h1, n) == WithNieces(Val(h, n), e.l, e.r) && Val(h1, s) == WithHash(Val(h, s), e.data)
  {
    hide Val, Refs, Apart, Rehash;
    RefsParts(n);
    ApartParts(n);
    RefsParts(s);
    ApartParts(s);
    ValueParts(h, n);
    ValueParts(h, s);
    ValueParts(h1, n);
    ValueParts(h1, s);
    OneHash(h, h1, {s.ref} + Refs(n.l) + Refs(n.r), s.l);
    OneHash(h, h1, {s.ref} + Refs(n.l) + Refs(n.r), s.r);
  }

  /** The turns to the node whose hash is that of the children at the end of some turns. */
  function OwnTurns(turns: seq<int>): seq<int> {
    if |turns| == 0 then [] else turns[..|turns| - 1] + [1 - turns[|turns| - 1]]
  }

  lemma {:induction false} OwnNode(h: Heap, k: Skel, turns: seq<int>, i: nat)
    requires Tied(h, k, NIL) && Apart(k) && Wide(k, turns) && i <= |turns|
    ensures NodeOn(h, k, OwnTurns(turns[..i]), NodeFor(k, turns[..i])) && SubAt(k, turns[..i]).Skel?
    ensures NodeFor(k, turns[..i]) in h && NodeFor(k, turns[..i]) != NIL
    ensures var y := SubAt(k, turns[..i]); y.l.Skel? && y.r.Skel? && y.l.ref in h && y.r.ref in h
  {
    hide Tied, SubAt, Apart, Wide;
    var t := turns[..i];
    WideAt(k, turns, i);
    SubNone(k);
    if i > 0 {
      WideAt(k, turns, i - 1);
      var front := t[..i - 1];
      assert front == turns[..i - 1];
      SubMore(k, front, 1 - t[i - 1]);
    }
    SubTied(h, k, NIL, t);
    TiedParts(h, SubAt(k, t), AuntAt(k, NIL, t));
    var y := SubAt(k, t);
    TiedParts(h, y.l, y.ref);
    TiedParts(h, y.r, y.ref);
    var own := OwnTurns(t);
    SubTied(h, k, NIL, own);
    TiedParts(h, SubAt(k, own), AuntAt(k, NIL, own));
    SubRefs(k, own);
    ApartParts(SubAt(k, own));
  }

  /** What has been hashed when the level `i` is next. */
  ghost function HashedFrom(h: Heap, k: Skel, turns: seq<int>, i: int): Heap
    requires -1 <= i <= |turns|
  {
    if i == |turns| then h else HashFrom(h, SubAt(k, turns[..i + 1]), NodeFor(k, turns[..i + 1]), turns[i + 1..])
  }

  lemma {:induction false} HashLevel(h: Heap, k: Skel, turns: seq<int>, i: nat)
    requires i <= |turns|
    ensures var h1, y, x := HashedFrom(h, k, turns, i), SubAt(k, turns[..i]), NodeFor(k, turns[..i]);
            HashedFrom(h, k, turns, i - 1) ==
            if x in h1 && y.Skel? then h1[x := h1[x].(data := ParentHash(DataAt(h1, y.l), DataAt(h1, y.r)))] else h1
  {
    hide SubAt, HashFrom;
    HashFromParts(h, SubAt(k, turns[..i]), NodeFor(k, turns[..i]), turns[i..]);
    if i < |turns| {
      assert turns[..i + 1] == turns[..i] + [turns[i]] && turns[i..][1..] == turns[i + 1..];
      assert turns[..i + 1][..i] == turns[..i];
      SubMore(k, turns[..i], turns[i]);
    }
  }

  /** Hash a node and all its ancestors up to the root. */
  method HashToRoot(h: Heap, x: Ref, ghost k: Skel, ghost turns: seq<int>) returns (h': Heap)
    requires Tied(h, k, NIL) && Apart(k) && Wide(k, turns) && x == NodeFor(k, turns)
    ensures h' == HashFrom(h, k, RefOf(k), turns)
  {
    hide Tied, SubAt, Apart, Wide, HashFrom, NodeOn, NodeFor, HashedFrom;
    var node := x;
    h' := h;
    ghost var i: int := |turns|;
    assert turns[..|turns|] == turns;
    HashedNone(h, k, turns);
    TiesStay(h, h, k);
    while node != NIL
      invariant -1 <= i <= |turns| && (i >= 0 ==> node == NodeFor(k, turns[..i])) && (i < 0 ==> node == NIL)
      invariant h' == HashedFrom(h, k, turns, i) && Tied(h', k, NIL)
      decreases i + 1
    {
      OwnNode(h', k, turns, i);
      HashLevel(h, k, turns, i);
      var leftChild, rightChild := GetChildren(h', node, k, turns[..i], OwnTurns(turns[..i]));
      ghost var before := h';
      h' := h'[node := h'[node].(data := ParentHash(h'[leftChild].data, h'[rightChild].data))];
      SameTies(before, h', {node}, k, NIL);
      OwnNode(h', k, turns, i);
      UpFrom(h', k, turns, i);
      node := GetParent(h', node, k, if i == 0 then [] else turns[..i - 1]);
      i := i - 1;
    }
    if i >= 0 { OwnNode(h', k, turns, i); }
    HashedAll(h, k, turns);
  }

  lemma TiesStay(h: Heap, h': Heap, k: Skel)
    requires h' == h && Tied(h, k, NIL)
    ensures Tied(h', k, NIL)
  {
  }

  lemma HashedNone(h: Heap, k: Skel, turns: seq<int>)
    ensures HashedFrom(h, k, turns, |turns|) == h
  {
  }

  lemma HashedAll(h: Heap, k: Skel, turns: seq<int>)
    ensures HashedFrom(h, k, turns, -1) == HashFrom(h, k, RefOf(k), turns)
  {
    hide HashFrom;
    assert turns[..0] == [] && turns[0..] == turns;
  }

  /** The aunt of the node of a level hangs where the level above begins. */
  lemma {:induction false} UpFrom(h: Heap, k: Skel, turns: seq<int>, i: nat)
    requires i <= |turns| && NodeOn(h, k, OwnTurns(turns[..i]), NodeFor(k, turns[..i]))
    ensures NodeFor(k, turns[..i]) in h
    ensures var aunt := h[NodeFor(k, turns[..i])].aunt;
            if i == 0 then aunt == NIL else aunt != NIL && NodeOn(h, k, turns[..i - 1], aunt)
  {
    hide NodeOn, SubAt;
    var own := OwnTurns(turns[..i]);
    if i > 0 {
      assert own[..|own| - 1] == turns[..i - 1];
      NodeBelow(h, k, own, NodeFor(k, turns[..i]));
    } else {
      SubNone(k);
      NodeTop(h, k, NodeFor(k, turns[..i]));
    }
  }

  /** After hashing the root has the node with all hashes on the way made new. */
  lemma {:induction false} RootHashed(h: Heap, k: Skel, turns: seq<int>)
    requires Tied(h, k, NIL) && Apart(k) && Wide(k, turns)
    ensures var h', e := HashFrom(h, k, RefOf(k), turns), Rehash(Val(h, k), turns);
            && OnlyData(h, h', Refs(k)) && Tied(h', k, NIL)
            && Val(h, k).Pol? && Val(h', k) == Pol(e.data, e.l, e.r, Val(h, k).remember)
  {
    hide Tied, Apart, Wide, HashFrom, Val, Refs, Rehash;
    WideParts(k, turns);
    TiedIn(h, k, NIL);
    RefsParts(k);
    ApartParts(k);
    HashFromFacts(h, k, k.ref, turns);
    var h' := HashFrom(h, k, RefOf(k), turns);
    SameTies(h, h', Refs(k), k, NIL);
    ValueParts(h, k);
    ValueParts(h', k);
  }

  /** A new hash is that of an inner node. */
  lemma {:induction false} NewHashes(h: Heap, y: Skel, x: Ref, turns: seq<int>, c: Ref)
    requires c in h
    ensures var h' := HashFrom(h, y, x, turns);
            c in h' && (h'[c].data == h[c].data || !IsLeafHash(h'[c].data))
    decreases |turns|
  {
    hide IsLeafHash;
    if |turns| > 0 { NewHashes(h, Nk(y, turns[0]), RefOf(Nk(y, 1 - turns[0])), turns[1..], c); }
    var h1 := if |turns| == 0 then h else HashFrom(h, Nk(y, turns[0]), RefOf(Nk(y, 1 - turns[0])), turns[1..]);
    if y.Skel? { InnerNotLeaf(DataAt(h1, y.l), DataAt(h1, y.r)); }
  }

  lemma InnerNotLeaf(a: Hash, b: Hash)
    ensures !IsLeafHash(ParentHash(a, b))
  {
  }
}
