/** Moving nodes of the pollard by their pointers. */
module CellEdits {
  import opened Nieces
  import opened NieceEdits
  import opened Cells
  import opened CellPaths

  function NieceRef(c: Cell, turn: int): Ref {
    if turn % 2 == 0 then c.lNiece else c.rNiece
  }

  lemma {:induction false} TiedNieces(h: Heap, k: Skel, aunt: Ref, turn: int)
    requires k.Skel? && Tied(h, k, aunt)
    ensures k.ref in h && h[k.ref].aunt == aunt && Points(h, k)
    ensures Tied(h, Nk(k, turn), k.ref) && Tied(h, Nk(k, 1 - turn), k.ref)
    ensures NieceRef(h[k.ref], turn) == RefOf(Nk(k, turn)) && NieceRef(h[k.ref], 1 - turn) == RefOf(Nk(k, 1 - turn))
  {
    hide Tied;
    TiedParts(h, k, aunt);
  }

  /** A pair of nieces, put together. */
  lemma {:induction false} PairTied(h: Heap, ref: Ref, turn: int, n: Skel, s: Skel, aunt: Ref)
    requires ref in h && NieceRef(h[ref], turn) == RefOf(n) && NieceRef(h[ref], 1 - turn) == RefOf(s)
    requires h[ref].aunt == aunt && Tied(h, n, ref) && Tied(h, s, ref)
    ensures Tied(h, Pair(ref, turn, n, s), aunt)
  {
    hide Tied;
    TiedParts(h, Pair(ref, turn, n, s), aunt);
  }

  lemma {:induction false} PairFacts(ref: Ref, turn: int, n: Skel, s: Skel)
    ensures var k := Pair(ref, turn, n, s);
            && k.Skel? && k.ref == ref && Nk(k, turn) == n && Nk(k, 1 - turn) == s
            && Refs(k) == {ref} + Refs(n) + Refs(s)
            && (Apart(k) <==>
                  ref != NIL && ref !in Refs(n) && ref !in Refs(s) && Refs(n) !! Refs(s) && Apart(n) && Apart(s))
  {
    hide Apart, Refs;
    RefsParts(Pair(ref, turn, n, s));
    ApartParts(Pair(ref, turn, n, s));
  }

  lemma {:induction false} PairValue(h: Heap, ref: Ref, turn: int, n: Skel, s: Skel)
    requires ref in h
    ensures var v := Val(h, Pair(ref, turn, n, s));
            && v.Pol? && v.data == h[ref].data && v.remember == h[ref].remember
            && Niece(v, turn) == Val(h, n) && Niece(v, 1 - turn) == Val(h, s)
  {
  }

  /** A part replaced by another. */
  function Plug(k: Skel, turns: seq<int>, y: Skel): Skel {
    if |turns| == 0 then y
    else if k.NoSkel? then NoSkel
    else Pair(k.ref, turns[0], Plug(Nk(k, turns[0]), turns[1..], y), Nk(k, 1 - turns[0]))
  }

  function PlugValue(v: PolNode, turns: seq<int>, w: PolNode): PolNode {
    if |turns| == 0 then w
    else if v.NoNode? then NoNode
    else
      var n := PlugValue(Niece(v, turns[0]), turns[1..], w);
      if turns[0] % 2 == 0 then v.(lNiece := n) else v.(rNiece := n)
  }

  lemma {:induction false} AuntFirst(k: Skel, aunt: Ref, turns: seq<int>)
    requires |turns| > 0 && k.Skel?
    ensures AuntAt(k, aunt, turns) == AuntAt(Nk(k, turns[0]), k.ref, turns[1..])
  {
    if |turns| > 1 {
      assert turns[1..][..|turns[1..]| - 1] == turns[..|turns| - 1][1..];
    }
  }

  /** When a part changes, in its own cells and others, the whole stays tied. */
  lemma {:induction false} Plugged(h: Heap, h': Heap, k: Skel, aunt: Ref, turns: seq<int>, y: Skel, more: set<Ref>)
    requires Tied(h, k, aunt) && Apart(k) && SubAt(k, turns).Skel? && Beyond(h, h', Refs(SubAt(k, turns)) + more)
    requires more !! Refs(k)
    requires y.Skel? && y.ref == SubAt(k, turns).ref && Apart(y) && Tied(h', y, AuntAt(k, aunt, turns))
    requires Refs(y) !! Refs(k) - Refs(SubAt(k, turns))
    ensures var k' := Plug(k, turns, y);
            && k.Skel? && k'.Skel? && k'.ref == k.ref && Tied(h', k', aunt) && Apart(k') && SubAt(k', turns) == y
            && Refs(k') == Refs(k) - Refs(SubAt(k, turns)) + Refs(y)
            && Val(h', k') == PlugValue(Val(h, k), turns, Val(h', y))
    decreases |turns|
  {
    hide Tied, Apart, Refs, Val;
    SubPrefix(k, turns, 0);
    assert turns[..0] == [];
    SubNone(k);
    if |turns| > 0 {
      var n, s := Nk(k, turns[0]), Nk(k, 1 - turns[0]);
      var rest := turns[1..];
      SubRefs(n, rest);
      PairOf(k, turns[0]);
      PairFacts(k.ref, turns[0], n, s);
      TiedNieces(h, k, aunt, turns[0]);
      AuntFirst(k, aunt, turns);
      Plugged(h, h', n, k.ref, rest, y, more);
      var n' := Plug(n, rest, y);
      PairFacts(k.ref, turns[0], n', s);
      KeepTied(h, h', Refs(SubAt(k, turns)) + more, s, k.ref);
      PairTied(h', k.ref, turns[0], n', s, aunt);
      PluggedValue(h, h', k, turns, y, n');
    }
  }

  lemma PairOf(k: Skel, turn: int)
    requires k.Skel?
    ensures k == Pair(k.ref, turn, Nk(k, turn), Nk(k, 1 - turn))
  {
  }

  lemma {:induction false} PluggedValue(h: Heap, h': Heap, k: Skel, turns: seq<int>, y: Skel, n': Skel)
    requires |turns| > 0 && k.Skel? && k.ref in h && k.ref in h' && h'[k.ref] == h[k.ref]
    requires n' == Plug(Nk(k, turns[0]), turns[1..], y) &&
             Val(h', n') == PlugValue(Val(h, Nk(k, turns[0])), turns[1..], Val(h', y))
    requires Val(h', Nk(k, 1 - turns[0])) == Val(h, Nk(k, 1 - turns[0]))
    ensures Val(h', Plug(k, turns, y)) == PlugValue(Val(h, k), turns, Val(h', y))
  {
    hide Val;
    PairOf(k, turns[0]);
    ValueOf(h, k);
    ValueOf(h', Plug(k, turns, y));
  }

  lemma ValueOf(h: Heap, k: Skel)
    requires k.Skel? && k.ref in h
    ensures Val(h, k) == Pol(h[k.ref].data, Val(h, k.l), Val(h, k.r), h[k.ref].remember)
  {
  }

  /** The pointer of a cell to a niece is changed. */
  function Repoint(h: Heap, c: Ref, x: Ref, y: Ref): Heap
    requires c in h
  {
    if h[c].lNiece == x then h[c := h[c].(lNiece := y)]
    else if h[c].rNiece == x then h[c := h[c].(rNiece := y)]
    else h
  }

  lemma {:induction false} Repointed(h: Heap, c: Ref, turn: int, x: Ref, y: Ref)
    requires c in h && NieceRef(h[c], turn) == x && NieceRef(h[c], 1 - turn) != x
    ensures var h' := Repoint(h, c, x, y);
            && h'.Keys == h.Keys && Beyond(h, h', {c}) && h'[c].aunt == h[c].aunt
            && h'[c].data == h[c].data && h'[c].remember == h[c].remember
            && NieceRef(h'[c], turn) == y && NieceRef(h'[c], 1 - turn) == NieceRef(h[c], 1 - turn)
  {
  }

  /** `a` takes the place of `b` below the aunt of `b`. */
  function Replaced(h: Heap, a: Ref, b: Ref): Heap
    requires a in h && b in h && (h[a].aunt != NIL ==> h[a].aunt in h) && (h[b].aunt != NIL ==> h[b].aunt in h)
    requires h[b].aunt != a && h[a].aunt != b
  {
    var h1 := if h[a].aunt != NIL then Repoint(h, h[a].aunt, a, NIL) else h;
    var h2 := if h1[b].aunt != NIL then Repoint(h1, h1[b].aunt, b, a) else h1;
    h2[a := h2[a].(aunt := h2[b].aunt)]
  }

  /** The aunt of `b` becomes the aunt of `a`; what then hangs from it is already tied. */
  method TransferAunt(h: Heap, a: Ref, b: Ref, ghost x: Skel) returns (h': Heap)
    requires a in h && b in h && (h[a].aunt != NIL ==> h[a].aunt in h) && (h[b].aunt != NIL ==> h[b].aunt in h)
    requires h[b].aunt != a && h[a].aunt != b && h[b].aunt != NIL
    requires var h1 := Replaced(h, a, b);
             x.Skel? && x.ref == h[b].aunt && Apart(x) && x.ref in h1 && Tied(h1, x, h1[x.ref].aunt)
    ensures h' == Replaced(h, a, b)
  {
    hide Tied, Apart;
    h' := h;
    if h'[a].aunt != NIL {
      h' := Repoint(h', h'[a].aunt, a, NIL);
    }
    if h'[b].aunt != NIL {
      h' := Repoint(h', h'[b].aunt, b, a);
    }
    h' := h'[a := h'[a].(aunt := h'[b].aunt)];
    if h'[a].aunt != NIL {
      h' := UpdateRight(h', h'[a].aunt, x);
    }
  }

  /** The nodes that take part in a deletion: a node `x` from which hang the parent of the deleted node and its sibling,
      and from the latter the deleted node and its own sibling. */
  ghost predicate Deleting(h: Heap, x: Skel, aunt: Ref, t1: int, t0: int) {
    && x.Skel? && Tied(h, x, aunt) && Apart(x)
    && Nk(x, t1).Skel? && Nk(x, 1 - t1).Skel? && Nk(Nk(x, t1), t0).Skel? && Nk(Nk(x, t1), 1 - t0).Skel?
  }

  /** After the sibling of the deleted node took the place of the parent. */
  function Taken(x: Skel, t1: int, t0: int): Skel
    requires x.Skel? && Nk(x, t1).Skel?
  {
    var a := Nk(x, t1);
    Pair(x.ref, t1, Pair(a.ref, t0, NoSkel, Nk(a, 1 - t0)), Nk(a, t0))
  }

  lemma {:induction false} TakenHeap(h: Heap, x: Ref, a: Ref, n: Ref, b: Ref, t1: int, t0: int)
    requires x in h && a in h && n in h && b in h && x != NIL && a != NIL && x != a && x != n && a != b && a != n &&
             b != n
    requires h[n].aunt == a && h[b].aunt == x && x != b
    requires NieceRef(h[a], t0) == n && NieceRef(h[a], 1 - t0) != n
    requires NieceRef(h[x], 1 - t1) == b && NieceRef(h[x], t1) != b
    ensures var h' := Replaced(h, n, b);
            && h'.Keys == h.Keys && Beyond(h, h', {x, a, n}) && h'[n] == h[n].(aunt := x)
            && (forall c :: c in h ==> h'[c].data == h[c].data && h'[c].remember == h[c].remember)
            && NieceRef(h'[a], t0) == NIL && NieceRef(h'[a], 1 - t0) == NieceRef(h[a], 1 - t0) &&
               h'[a].aunt == h[a].aunt
            && NieceRef(h'[x], 1 - t1) == n && NieceRef(h'[x], t1) == NieceRef(h[x], t1) && h'[x].aunt == h[x].aunt
  {
    hide NieceRef, Repoint;
    var h1 := Repoint(h, a, n, NIL);
    Repointed(h, a, t0, n, NIL);
    var h2 := Repoint(h1, x, b, n);
    OtherTurn(t1, h[x]);
    Repointed(h1, x, 1 - t1, b, n);
    OtherTurn(t1, Repoint(h1, x, b, n)[x]);
    assert Replaced(h, n, b) == h2[n := h2[n].(aunt := x)];
  }

  lemma {:induction false} TakenTied(h: Heap, x: Skel, aunt: Ref, t1: int, t0: int)
    requires Deleting(h, x, aunt, t1, t0)
    ensures var a, b := Nk(x, t1), Nk(x, 1 - t1);
            var n, s := Nk(a, t0), Nk(a, 1 - t0);
            && n.ref in h && b.ref in h && h[n.ref].aunt == a.ref && h[b.ref].aunt == x.ref && a.ref in h && x.ref in h
            && x.ref != n.ref && a.ref != b.ref && a.ref != NIL && x.ref != NIL && n.ref != b.ref
            && var h' := Replaced(h, n.ref, b.ref);
            && Tied(h', Taken(x, t1, t0), aunt) && Apart(Taken(x, t1, t0))
            && h'.Keys == h.Keys && Beyond(h, h', {x.ref, a.ref, n.ref})
            && (forall c :: c in h ==> h'[c].data == h[c].data && h'[c].remember == h[c].remember)
            && Tied(h', s, a.ref) && Tied(h', b, x.ref) && Val(h', s) == Val(h, s) && Val(h', b) == Val(h, b)
            && Tied(h', n, x.ref) && Val(h', n) == Val(h, n)
  {
    hide Tied, Apart, Refs, Val;
    var a, b := Nk(x, t1), Nk(x, 1 - t1);
    var n, s := Nk(a, t0), Nk(a, 1 - t0);
    PairOf(x, t1);
    PairFacts(x.ref, t1, a, b);
    PairOf(a, t0);
    PairFacts(a.ref, t0, n, s);
    RefsParts(n);
    RefsParts(b);
    RefsParts(s);
    ApartParts(n);
    ApartParts(b);
    ApartParts(s);
    TiedNieces(h, x, aunt, t1);
    TiedNieces(h, a, x.ref, t0);
    TiedNieces(h, n, a.ref, 0);
    TiedNieces(h, b, x.ref, 0);
    TakenHeap(h, x.ref, a.ref, n.ref, b.ref, t1, t0);
    var h' := Replaced(h, n.ref, b.ref);
    KeepTied(h, h', {x.ref, a.ref, n.ref}, s, a.ref);
    KeepTied(h, h', {x.ref, a.ref, n.ref}, b, x.ref);
    KeepTied(h, h', {x.ref, a.ref, n.ref}, n.l, n.ref);
    KeepTied(h, h', {x.ref, a.ref, n.ref}, n.r, n.ref);
    TiedParts(h', n, x.ref);
    ValueOf(h, n);
    ValueOf(h', n);
    TiedNothing();
    NoApart();
    PairTied(h', a.ref, t0, NoSkel, s, x.ref);
    PairFacts(a.ref, t0, NoSkel, s);
    var a' := Pair(a.ref, t0, NoSkel, s);
    OtherTurn(t1, h'[x.ref]);
    PairTied(h', x.ref, t1, a', n, aunt);
    PairFacts(x.ref, t1, a', n);
  }

  lemma NoApart()
    ensures Apart(NoSkel)
  {
  }

  lemma OtherTurn(t: int, c: Cell)
    ensures NieceRef(c, 1 - (1 - t)) == NieceRef(c, t)
  {
  }

  /** What hangs from `x` after the deletion. */
  function Moved(x: Skel, t1: int, t0: int): Skel
    requires x.Skel? && Nk(x, t1).Skel? && Nk(x, 1 - t1).Skel? && Nk(Nk(x, t1), t0).Skel? && Nk(Nk(x, t1), 1 - t0).Skel?
  {
    var a, b := Nk(x, t1), Nk(x, 1 - t1);
    var n, s := Nk(a, t0), Nk(a, 1 - t0);
    Pair(x.ref, t1, Skel(a.ref, s.l, s.r), Skel(n.ref, b.l, b.r))
  }

  /** The sibling of a deleted node moves up into the place of its parent, which is not a root, and its children with
      it. */
  method MoveUp(h: Heap, fromNode: Ref, fromNodeSib: Ref, toNode: Ref, toSib: Ref, ghost x: Skel, ghost aunt: Ref,
                ghost t1: int, ghost t0: int)
    returns (h': Heap)
    requires Deleting(h, x, aunt, t1, t0)
    requires toSib == Nk(x, t1).ref && toNode == Nk(x, 1 - t1).ref
    requires fromNode == Nk(Nk(x, t1), t0).ref && fromNodeSib == Nk(Nk(x, t1), 1 - t0).ref
    ensures var y := Moved(x, t1, t0);
            && Tied(h', y, aunt) && Apart(y) && Refs(y) <= Refs(x) && h'.Keys == h.Keys && Beyond(h, h', Refs(x))
            && SameContents(h, h') && toNode !in Refs(y) && fromNodeSib !in Refs(y) && toNode in h' && fromNodeSib in h'
            && h'[toNode].aunt == x.ref && h'[fromNodeSib].aunt == toSib
            && h'[fromNodeSib].lNiece == NIL && h'[fromNodeSib].rNiece == NIL
    ensures var a, b := Nk(x, t1), Nk(x, 1 - t1);
            var n, s := Nk(a, t0), Nk(a, 1 - t0);
            && Val(h', Nk(Moved(x, t1, t0), t1)) == WithNieces(Val(h, a), Val(h, s.l), Val(h, s.r))
            && Val(h', Nk(Moved(x, t1, t0), 1 - t1)) == WithNieces(Val(h, n), Val(h, b.l), Val(h, b.r))
  {
    hide Tied, Apart, Refs, Val;
    ghost var a, b := Nk(x, t1), Nk(x, 1 - t1);
    ghost var n, s := Nk(a, t0), Nk(a, 1 - t0);
    ghost var y := Moved(x, t1, t0);
    DeletingParts(h, x, aunt, t1, t0);
    TakenTied(h, x, aunt, t1, t0);
    PairFacts(x.ref, t1, Pair(a.ref, t0, NoSkel, s), n);
    TiedNieces(Replaced(h, fromNode, toNode), Taken(x, t1, t0), aunt, t1);
    h' := TransferAunt(h, fromNode, toNode, Taken(x, t1, t0));
    ghost var h1 := h';
    TiedParts(h1, b, x.ref);
    TiedParts(h1, s, a.ref);
    h' := TransferNiece(h', fromNode, toNode, b);
    ghost var h2 := h';
    ghost var moved := {n.ref, b.ref} + Refs(b.l) + Refs(b.r);
    KeepTied(h1, h2, moved, s, a.ref);
    TiedParts(h2, s, a.ref);
    h' := TransferNiece(h', toSib, fromNodeSib, s);
    ghost var h3 := h';
    MovedTied(h1, h2, h3, x, aunt, t1, t0);
    MovedRefs(x, t1, t0);
    h' := UpdateRight(h', h'[toNode].aunt, y);
    MovedValues(h, h1, h2, h3, x, t1, t0);
  }

  lemma {:induction false} DeletingParts(h: Heap, x: Skel, aunt: Ref, t1: int, t0: int)
    requires Deleting(h, x, aunt, t1, t0)
    ensures var a, b := Nk(x, t1), Nk(x, 1 - t1);
            var n, s := Nk(a, t0), Nk(a, 1 - t0);
            && Apart(b) && Apart(s) && Apart(n) && n.ref !in Refs(b) && a.ref !in Refs(s) && Refs(s) !! Refs(b)
            && n.ref !in Refs(s) && a.ref !in Refs(b) && x.ref !in Refs(s) && x.ref !in Refs(b)
            && n.ref != NIL && a.ref != NIL && x.ref != NIL && x.ref != n.ref && x.ref != a.ref && a.ref != n.ref
            && Refs(b) == {b.ref} + Refs(b.l) + Refs(b.r) && Refs(s) == {s.ref} + Refs(s.l) + Refs(s.r)
            && Refs(b) <= Refs(x) && Refs(s) <= Refs(x) && a.ref in Refs(x) && n.ref in Refs(x) && x.ref in Refs(x)
  {
    hide Tied, Apart, Refs;
    var a, b := Nk(x, t1), Nk(x, 1 - t1);
    var n, s := Nk(a, t0), Nk(a, 1 - t0);
    PairOf(x, t1);
    PairFacts(x.ref, t1, a, b);
    PairOf(a, t0);
    PairFacts(a.ref, t0, n, s);
    RefsParts(n);
    RefsParts(b);
    RefsParts(s);
    ApartParts(n);
  }

  lemma {:induction false} MovedRefs(x: Skel, t1: int, t0: int)
    requires x.Skel? && Nk(x, t1).Skel? && Nk(x, 1 - t1).Skel? && Nk(Nk(x, t1), t0).Skel? && Nk(Nk(x, t1), 1 - t0).Skel?
    requires Apart(x)
    ensures var y := Moved(x, t1, t0);
            && Refs(y) <= Refs(x) && Apart(y)
            && Nk(x, 1 - t1).ref !in Refs(y) && Nk(Nk(x, t1), 1 - t0).ref !in Refs(y)
  {
    hide Apart, Refs;
    var a, b := Nk(x, t1), Nk(x, 1 - t1);
    var n, s := Nk(a, t0), Nk(a, 1 - t0);
    PairOf(x, t1);
    PairFacts(x.ref, t1, a, b);
    PairOf(a, t0);
    PairFacts(a.ref, t0, n, s);
    RefsParts(n);
    RefsParts(b);
    RefsParts(s);
    ApartParts(n);
    ApartParts(b);
    ApartParts(s);
    PairFacts(x.ref, t1, Skel(a.ref, s.l, s.r), Skel(n.ref, b.l, b.r));
    RefsParts(Skel(a.ref, s.l, s.r));
    RefsParts(Skel(n.ref, b.l, b.r));
    ApartParts(Skel(a.ref, s.l, s.r));
    ApartParts(Skel(n.ref, b.l, b.r));
  }

  /** The heaps on the way: one pair of nieces moved, then another. */
  ghost predicate TwoMoves(h1: Heap, h2: Heap, h3: Heap, n: Ref, b: Skel, a: Ref, s: Skel) {
    && b.Skel? && s.Skel? && n in h1 && a in h2 && b.ref in h1 && s.ref in h2
    && h2.Keys == h1.Keys && h3.Keys == h1.Keys
    && Beyond(h1, h2, {n, b.ref} + Refs(b.l) + Refs(b.r)) && Tied(h2, Skel(n, b.l, b.r), h1[n].aunt)
    && Beyond(h2, h3, {a, s.ref} + Refs(s.l) + Refs(s.r)) && Tied(h3, Skel(a, s.l, s.r), h2[a].aunt)
    && h2[b.ref] == h1[b.ref].(lNiece := NIL, rNiece := NIL) && h3[s.ref] == h2[s.ref].(lNiece := NIL, rNiece := NIL)
  }

  lemma {:induction false} MovedTied(h1: Heap, h2: Heap, h3: Heap, x: Skel, aunt: Ref, t1: int, t0: int)
    requires x.Skel? && Nk(x, t1).Skel? && Nk(x, 1 - t1).Skel? && Nk(Nk(x, t1), t0).Skel? && Nk(Nk(x, t1), 1 - t0).Skel?
    requires Apart(x) && Tied(h1, Taken(x, t1, t0), aunt)
    requires var a, b := Nk(x, t1), Nk(x, 1 - t1);
             var n, s := Nk(a, t0), Nk(a, 1 - t0);
             TwoMoves(h1, h2, h3, n.ref, b, a.ref, s) && h1[b.ref].aunt == x.ref && Tied(h1, s, a.ref)
    ensures var a, b := Nk(x, t1), Nk(x, 1 - t1);
            var n, s := Nk(a, t0), Nk(a, 1 - t0);
            && Tied(h3, Moved(x, t1, t0), aunt) && h3[b.ref].aunt == x.ref && h3[s.ref].aunt == a.ref
            && h3[s.ref].lNiece == NIL && h3[s.ref].rNiece == NIL && x.ref in h3
            && h3[x.ref] == h1[x.ref] && h3[x.ref].aunt == aunt
  {
    hide Tied, Apart, Refs;
    var a, b := Nk(x, t1), Nk(x, 1 - t1);
    var n, s := Nk(a, t0), Nk(a, 1 - t0);
    Pieces(x, t1, t0);
    var a1 := Pair(a.ref, t0, NoSkel, s);
    PairFacts(x.ref, t1, a1, n);
    TiedNieces(h1, Taken(x, t1, t0), aunt, t1);
    TiedNieces(h1, n, x.ref, 0);
    TiedNieces(h1, a1, x.ref, t0);
    TiedNieces(h1, s, a.ref, 0);
    var n', a' := Skel(n.ref, b.l, b.r), Skel(a.ref, s.l, s.r);
    RefsParts(n');
    KeepTied(h2, h3, {a.ref, s.ref} + Refs(s.l) + Refs(s.r), n', x.ref);
    PairTied(h3, x.ref, t1, a', n', aunt);
  }

  /** All pieces are apart. */
  lemma {:induction false} Pieces(x: Skel, t1: int, t0: int)
    requires x.Skel? && Nk(x, t1).Skel? && Nk(x, 1 - t1).Skel? && Nk(Nk(x, t1), t0).Skel? && Nk(Nk(x, t1), 1 - t0).Skel?
    requires Apart(x)
    ensures var a, b := Nk(x, t1), Nk(x, 1 - t1);
            var n, s := Nk(a, t0), Nk(a, 1 - t0);
            && Refs(b) == {b.ref} + Refs(b.l) + Refs(b.r) && Refs(s) == {s.ref} + Refs(s.l) + Refs(s.r)
            && Refs(s) !! Refs(b) && {x.ref, a.ref, n.ref} !! Refs(b) && {x.ref, a.ref, n.ref} !! Refs(s)
            && x.ref != a.ref && x.ref != n.ref && a.ref != n.ref
  {
    hide Apart, Refs;
    var a, b := Nk(x, t1), Nk(x, 1 - t1);
    var n, s := Nk(a, t0), Nk(a, 1 - t0);
    PairOf(x, t1);
    PairFacts(x.ref, t1, a, b);
    PairOf(a, t0);
    PairFacts(a.ref, t0, n, s);
    RefsParts(n);
    RefsParts(b);
    RefsParts(s);
  }

  lemma {:induction false} MovedValues(h: Heap, h1: Heap, h2: Heap, h3: Heap, x: Skel, t1: int, t0: int)
    requires x.Skel? && Nk(x, t1).Skel? && Nk(x, 1 - t1).Skel? && Nk(Nk(x, t1), t0).Skel? && Nk(Nk(x, t1), 1 - t0).Skel?
    requires Apart(x) && h.Keys == h1.Keys && SameContents(h, h1)
    requires var a, b := Nk(x, t1), Nk(x, 1 - t1);
             var n, s := Nk(a, t0), Nk(a, 1 - t0);
             && TwoMoves(h1, h2, h3, n.ref, b, a.ref, s) && Val(h1, s) == Val(h, s) && Val(h1, b) == Val(h, b)
             && h2[n.ref] == h1[n.ref].(lNiece := RefOf(b.l), rNiece := RefOf(b.r))
             && h3[a.ref] == h2[a.ref].(lNiece := RefOf(s.l), rNiece := RefOf(s.r))
             && Val(h2, b.l) == Val(h1, b.l) && Val(h2, b.r) == Val(h1, b.r)
             && Val(h2, s) == Val(h1, s) && Val(h3, s.l) == Val(h2, s.l) && Val(h3, s.r) == Val(h2, s.r)
             && SameContents(h1, h2) && SameContents(h2, h3)
    ensures var a, b := Nk(x, t1), Nk(x, 1 - t1);
            var n, s := Nk(a, t0), Nk(a, 1 - t0);
            && Val(h3, Skel(a.ref, s.l, s.r)) == WithNieces(Val(h, a), Val(h, s.l), Val(h, s.r))
            && Val(h3, Skel(n.ref, b.l, b.r)) == WithNieces(Val(h, n), Val(h, b.l), Val(h, b.r))
            && SameContents(h, h3) && Beyond(h1, h3, Refs(x))
  {
    hide Tied, Apart, Refs, Val;
    var a, b := Nk(x, t1), Nk(x, 1 - t1);
    var n, s := Nk(a, t0), Nk(a, 1 - t0);
    Pieces(x, t1, t0);
    PairOf(x, t1);
    PairFacts(x.ref, t1, a, b);
    PairOf(a, t0);
    PairFacts(a.ref, t0, n, s);
    RefsParts(n);
    var n' := Skel(n.ref, b.l, b.r);
    RefsParts(n');
    KeepTied(h2, h3, {a.ref, s.ref} + Refs(s.l) + Refs(s.r), n', h1[n.ref].aunt);
    ValueOf(h, a);
    ValueOf(h, n);
    ValueOf(h, b);
    ValueOf(h1, b);
    ValueOf(h, s);
    ValueOf(h1, s);
    ValueOf(h2, s);
    ValueOf(h2, n');
    ValueOf(h3, Skel(a.ref, s.l, s.r));
  }

  /** The cells that cutting a node off changes. */
  ghost function CutSet(h: Heap, x: Ref): set<Ref>
    requires x in h
  {
    var c := h[x];
    {x} + (if c.lNiece != NIL then {c.lNiece} else {}) + (if c.rNiece != NIL then {c.rNiece} else {}) +
    (if c.aunt != NIL && c.aunt in h && (h[c.aunt].lNiece == x || h[c.aunt].rNiece == x) then {c.aunt} else {})
  }

  /** Cells change only within a set, and hashes and flags not at all. */
  ghost predicate Within(h: Heap, h': Heap, s: set<Ref>) {
    h'.Keys == h.Keys && SameContents(h, h') && Beyond(h, h', s)
  }

  /** Change one cell. */
  function SetCell(ghost h: Heap, h1: Heap, x: Ref, c: Cell, ghost s: set<Ref>): (h2: Heap)
    requires x in h1 && x in s && c.data == h1[x].data && c.remember == h1[x].remember && Within(h, h1, s)
    ensures h2 == h1[x := c] && Within(h, h2, s) && h2.Keys == h1.Keys
  {
    h1[x := c]
  }

  /** Only the cells around a node change, and of nieces only the pointer to the aunt, which is cleared. */
  ghost predicate CutAt(h: Heap, h': Heap, x: Ref)
    requires x in h
  {
    && Within(h, h', CutSet(h, x))
    && forall y :: y in h && y != x && y != h[x].aunt ==> h'[y] == h[y] || h'[y] == h[y].(aunt := NIL)
  }

  function CutCell(ghost h: Heap, h1: Heap, y: Ref, c: Cell, ghost x: Ref): (h2: Heap)
    requires x in h && y in h1 && y in CutSet(h, x) && c.data == h1[y].data && c.remember == h1[y].remember
    requires CutAt(h, h1, x) && (y == x || y == h[x].aunt || c == h1[y].(aunt := NIL))
    ensures h2 == h1[y := c] && CutAt(h, h2, x) && h2.Keys == h1.Keys
  {
    h1[y := c]
  }

  lemma CutNone(h: Heap, x: Ref)
    requires x in h
    ensures CutAt(h, h, x)
  {
  }

  /** The aunt of a node does not point to it. */
  ghost predicate AuntCut(h: Heap, h': Heap, x: Ref)
    requires x in h && h'.Keys == h.Keys
  {
    var a := h[x].aunt;
    a != NIL && a in h && h[a].lNiece != h[a].rNiece && x != NIL ==> h'[a].lNiece != x && h'[a].rNiece != x
  }

  /** A niece of the node does not point to it. */
  ghost predicate NieceCut(h: Heap, h': Heap, n: Ref)
    requires h'.Keys == h.Keys
  {
    n != NIL && n in h ==> h'[n].aunt == NIL
  }

  /** A node points nowhere any more, and neither its aunt nor its nieces point to it. */
  ghost predicate CutOff(h: Heap, h': Heap, x: Ref)
    requires x in h && h'.Keys == h.Keys
  {
    && h'[x].aunt == NIL && h'[x].lNiece == NIL && h'[x].rNiece == NIL && AuntCut(h, h', x)
    && NieceCut(h, h', h[x].lNiece) && NieceCut(h, h', h[x].rNiece)
  }

  /** Cut a node off from its aunt and its nieces. */
  method DelNode(h: Heap, x: Ref) returns (h': Heap)
    requires x in h && (h[x].aunt != NIL ==> h[x].aunt in h) && h[x].aunt != x
    requires (h[x].lNiece != NIL ==> h[x].lNiece in h) && (h[x].rNiece != NIL ==> h[x].rNiece in h)
    requires h[x].lNiece != x && h[x].rNiece != x
    ensures CutAt(h, h', x) && h'.Keys == h.Keys && CutOff(h, h', x)
  {
    hide CutAt, AuntCut, Looser, CutSet;
    CutNone(h, x);
    AroundNode(h, x);
    var lNiece, rNiece := h[x].lNiece, h[x].rNiece;
    h' := CutAunt(h, x);
    ghost var h1 := h';
    h' := CutCell(h, h', x, h'[x].(aunt := NIL), x);
    LooserAt(h1, h', x);
    h' := CutNiece(h, h1, h', x, lNiece);
    ghost var h2 := h';
    h' := CutCell(h, h', x, h'[x].(lNiece := NIL), x);
    LooserAt(h2, h', x);
    LooserTwice(h1, h2, h', x);
    ghost var h4 := h';
    h' := CutNiece(h, h1, h', x, rNiece);
    ghost var h3 := h';
    h' := CutCell(h, h', x, h'[x].(rNiece := NIL), x);
    LooserAt(h3, h', x);
    LooserTwice(h1, h3, h', x);
    LooserTwice(h2, h4, h3, x);
    LooserTwice(h2, h3, h', x);
    CutDone(h, h1, h2, h3, h', x);
  }

  /** Other cells keep their nieces, and may lose their aunt. */
  ghost predicate Looser(h: Heap, h': Heap, x: Ref) {
    && h'.Keys == h.Keys
    && forall c :: c in h && c != x ==>
         && h'[c].lNiece == h[c].lNiece && h'[c].rNiece == h[c].rNiece
         && (h'[c].aunt == h[c].aunt || h'[c].aunt == NIL)
  }

  lemma LooserAt(h: Heap, h': Heap, x: Ref)
    requires x in h && x in h' && h' == h[x := h'[x]]
    ensures Looser(h, h', x)
  {
  }

  lemma LooserTwice(h1: Heap, h2: Heap, h3: Heap, x: Ref)
    requires Looser(h1, h2, x) && Looser(h2, h3, x)
    ensures Looser(h1, h3, x)
  {
  }

  lemma AroundNode(h: Heap, x: Ref)
    requires x in h
    ensures x in CutSet(h, x) && (h[x].lNiece != NIL ==> h[x].lNiece in CutSet(h, x))
    ensures h[x].rNiece != NIL ==> h[x].rNiece in CutSet(h, x)
  {
  }

  method CutNiece(ghost h: Heap, ghost h1: Heap, h2: Heap, x: Ref, n: Ref) returns (h': Heap)
    requires x in h && CutAt(h, h2, x) && Looser(h1, h2, x) && h2.Keys == h.Keys && n != x
    requires n != NIL ==> n in h2 && n in CutSet(h, x)
    ensures CutAt(h, h', x) && Looser(h1, h', x) && Looser(h2, h', x) && h'.Keys == h.Keys && h'[x] == h2[x]
    ensures NieceCut(h, h', n)
  {
    hide CutAt, CutSet;
    h' := h2;
    if n != NIL {
      h' := CutCell(h, h', n, h'[n].(aunt := NIL), x);
    }
  }

  lemma CutDone(h: Heap, h1: Heap, h2: Heap, h3: Heap, h': Heap, x: Ref)
    requires x in h && h1.Keys == h.Keys && h'.Keys == h.Keys && AuntCut(h, h1, x) && h[x].aunt != x && h[x].lNiece != x
    requires h[x].rNiece != x && h2.Keys == h.Keys && h3.Keys == h.Keys
    requires Looser(h1, h', x) && Looser(h2, h', x) && Looser(h3, h', x)
    requires NieceCut(h, h2, h[x].lNiece) && NieceCut(h, h3, h[x].rNiece)
    ensures AuntCut(h, h', x) && NieceCut(h, h', h[x].lNiece) && NieceCut(h, h', h[x].rNiece)
  {
  }

  method CutAunt(h: Heap, x: Ref) returns (h': Heap)
    requires x in h && (h[x].aunt != NIL ==> h[x].aunt in h) && h[x].aunt != x && CutAt(h, h, x)
    ensures CutAt(h, h', x) && h'.Keys == h.Keys && AuntCut(h, h', x) && h'[x] == h[x]
  {
    hide CutAt;
    h' := h;
    var aunt := h[x].aunt;
    if aunt != NIL {
      if h'[aunt].rNiece == x {
        h' := CutCell(h, h', aunt, h'[aunt].(rNiece := NIL), x);
      } else if h'[aunt].lNiece == x {
        h' := CutCell(h, h', aunt, h'[aunt].(lNiece := NIL), x);
      }
    }
  }

  lemma WithinKeys(h: Heap, h1: Heap, h2: Heap, s: set<Ref>, t: set<Ref>)
    requires Within(h, h1, s) && Within(h1, h2, t)
    ensures h2.Keys == h.Keys
  {
  }

  lemma WithinMore(h: Heap, h': Heap, s: set<Ref>, t: set<Ref>)
    requires Within(h, h', s) && s <= t
    ensures Within(h, h', t)
  {
  }

  lemma WithinNone(h: Heap, s: set<Ref>)
    ensures Within(h, h, s)
  {
  }

  /** A root gives way to one of its children: it takes the hash of the child, and the children of the child, which the
      other child holds. */
  method TakeRoot(h: Heap, root: Ref, fromNode: Ref, fromNodeSib: Ref, ghost k: Skel, ghost t0: int) returns (h': Heap)
    requires k.Skel? && k.ref == root && Tied(h, k, NIL) && Apart(k) && Nk(k, t0).Skel? && Nk(k, 1 - t0).Skel?
    requires fromNode == Nk(k, t0).ref && fromNodeSib == Nk(k, 1 - t0).ref
    ensures var s := Nk(k, 1 - t0);
            var y := Skel(root, s.l, s.r);
            && Tied(h', y, NIL) && Apart(y) && Refs(y) <= Refs(k) && h'.Keys == h.Keys && Beyond(h, h', Refs(k))
            && fromNode !in Refs(y) && fromNodeSib !in Refs(y) && fromNode in h && root in h
            && Val(h', y) == Pol(h[fromNode].data, Val(h, s.l), Val(h, s.r), h[fromNode].remember)
            && (forall c :: c in h && c != root ==> h'[c].data == h[c].data)
  {
    hide Tied, Apart, Refs, Val, Within, CutSet;
    ghost var n, s := Nk(k, t0), Nk(k, 1 - t0);
    ghost var y := Skel(root, s.l, s.r);
    RootPieces(h, k, t0);
    h' := h[root := h[fromNode]];
    ghost var h1 := h';
    KeepTied(h, h1, {root}, s, root);
    TiedParts(h1, s, root);
    ValueOf(h, s);
    ValueOf(h1, s);
    h' := TransferNiece(h', root, fromNodeSib, s);
    ghost var h2 := h';
    h' := UpdateRight(h', root, y);
    FirstCut(h, h1, h2, k, t0);
    h' := DelNode(h', fromNode);
    ghost var h3 := h';
    WithinMore(h2, h3, CutSet(h2, fromNode), Refs(n));
    SecondCut(h2, h3, k, t0);
    h' := DelNode(h', fromNodeSib);
    ghost var h4 := h';
    WithinKeys(h2, h3, h4, Refs(n), {fromNodeSib});
    h' := h'[root := h'[root].(aunt := NIL)];
    RootTaken(h, h1, h2, h3, h4, h', k, t0);
  }

  /** The node that moved to the root can be cut off. */
  lemma {:induction false} FirstCut(h: Heap, h1: Heap, h2: Heap, k: Skel, t0: int)
    requires k.Skel? && Tied(h, k, NIL) && Apart(k) && Nk(k, t0).Skel? && Nk(k, 1 - t0).Skel?
    requires var n, s := Nk(k, t0), Nk(k, 1 - t0);
             && n.ref in h && k.ref in h && s.ref in h && h1 == h[k.ref := h[n.ref]] && h2.Keys == h1.Keys
             && Beyond(h1, h2, {k.ref, s.ref} + Refs(s.l) + Refs(s.r))
             && h2[k.ref] == h1[k.ref].(lNiece := RefOf(s.l), rNiece := RefOf(s.r))
             && h2[s.ref] == h1[s.ref].(lNiece := NIL, rNiece := NIL)
    ensures var n, s := Nk(k, t0), Nk(k, 1 - t0);
            var c := h2[n.ref];
            && n.ref in h2 && c.aunt == k.ref && k.ref in h2 && c.aunt != n.ref && c.lNiece != n.ref &&
               c.rNiece != n.ref
            && (c.lNiece != NIL ==> c.lNiece in h2) && (c.rNiece != NIL ==> c.rNiece in h2)
            && CutSet(h2, n.ref) <= Refs(n)
  {
    hide Tied, Apart, Refs;
    var n, s := Nk(k, t0), Nk(k, 1 - t0);
    RootPieces(h, k, t0);
    NiecesIn(h, n, k.ref);
    assert h2[n.ref] == h[n.ref];
    NoNiece(s.l, s.r, n);
  }

  lemma {:induction false} NoNiece(l: Skel, r: Skel, n: Skel)
    requires n.Skel? && n.ref != NIL && Refs(l) !! Refs(n) && Refs(r) !! Refs(n)
    ensures RefOf(l) != n.ref && RefOf(r) != n.ref
  {
    assert n.ref in Refs(n);
    assert l.Skel? ==> l.ref in Refs(l);
    assert r.Skel? ==> r.ref in Refs(r);
  }

  /** Its former sibling can be cut off. */
  lemma {:induction false} SecondCut(h2: Heap, h3: Heap, k: Skel, t0: int)
    requires k.Skel? && Apart(k) && Nk(k, t0).Skel? && Nk(k, 1 - t0).Skel?
    requires var n, s := Nk(k, t0), Nk(k, 1 - t0);
             && Within(h2, h3, Refs(n)) && s.ref in h2 && k.ref in h2
             && h2[s.ref].lNiece == NIL && h2[s.ref].rNiece == NIL && h2[s.ref].aunt == k.ref
             && h2[k.ref].lNiece == RefOf(s.l) && h2[k.ref].rNiece == RefOf(s.r)
    ensures var n, s := Nk(k, t0), Nk(k, 1 - t0);
            && s.ref in h3 && k.ref in h3 && h3[s.ref] == h2[s.ref] && s.ref != NIL && k.ref != s.ref
            && CutSet(h3, s.ref) == {s.ref}
  {
    hide Apart, Refs;
    var n, s := Nk(k, t0), Nk(k, 1 - t0);
    PairOf(k, t0);
    PairFacts(k.ref, t0, n, s);
    RefsParts(s);
    ApartParts(s);
    OwnNieces(s);
  }

  lemma {:induction false} OwnNieces(s: Skel)
    requires s.Skel? && Apart(s)
    ensures RefOf(s.l) != s.ref && RefOf(s.r) != s.ref
  {
  }

  lemma {:induction false} RootPieces(h: Heap, k: Skel, t0: int)
    requires k.Skel? && Tied(h, k, NIL) && Apart(k) && Nk(k, t0).Skel? && Nk(k, 1 - t0).Skel?
    ensures var n, s := Nk(k, t0), Nk(k, 1 - t0);
            var y := Skel(k.ref, s.l, s.r);
            && k.ref in h && n.ref in h && s.ref in h && k.ref != NIL && Tied(h, s, k.ref) && Tied(h, n, k.ref)
            && Apart(s) && Apart(n) && Apart(y) && k.ref !in Refs(s) && k.ref !in Refs(n) && Refs(n) !! Refs(s)
            && Refs(y) == {k.ref} + Refs(s.l) + Refs(s.r) && Refs(s) == {s.ref} + Refs(s.l) + Refs(s.r)
            && s.ref !in Refs(y) && n.ref in Refs(n) && h[n.ref].aunt == k.ref && h[s.ref].aunt == k.ref
  {
    hide Tied, Apart, Refs;
    var n, s := Nk(k, t0), Nk(k, 1 - t0);
    var y := Skel(k.ref, s.l, s.r);
    PairOf(k, t0);
    PairFacts(k.ref, t0, n, s);
    RefsParts(n);
    RefsParts(s);
    ApartParts(n);
    ApartParts(s);
    RefsParts(y);
    ApartParts(y);
    TiedNieces(h, k, NIL, t0);
    TiedNieces(h, n, k.ref, 0);
    TiedNieces(h, s, k.ref, 0);
  }

  lemma {:induction false} NilOut(k: Skel)
    requires Apart(k)
    ensures NIL !in Refs(k)
    decreases k
  {
    if k.Skel? {
      NilOut(k.l);
      NilOut(k.r);
    }
  }

  /** The nieces of a node are cells below it. */
  lemma {:induction false} NiecesIn(h: Heap, k: Skel, aunt: Ref)
    requires k.Skel? && Tied(h, k, aunt) && Apart(k)
    ensures k.ref in h && k.ref != NIL && h[k.ref].lNiece != k.ref && h[k.ref].rNiece != k.ref
    ensures h[k.ref].lNiece != NIL ==> h[k.ref].lNiece in h && h[k.ref].lNiece in Refs(k)
    ensures h[k.ref].rNiece != NIL ==> h[k.ref].rNiece in h && h[k.ref].rNiece in Refs(k)
    ensures NIL !in Refs(k)
  {
    hide Tied, Apart, Refs;
    NilOut(k);
    TiedParts(h, k, aunt);
    ApartParts(k);
    RefsParts(k);
    if k.l.Skel? { RefsParts(k.l); TiedParts(h, k.l, k.ref); }
    if k.r.Skel? { RefsParts(k.r); TiedParts(h, k.r, k.ref); }
  }

  lemma {:induction false} RootTaken(h: Heap, h1: Heap, h2: Heap, h3: Heap, h4: Heap, h5: Heap, k: Skel, t0: int)
    requires k.Skel? && Tied(h, k, NIL) && Apart(k) && Nk(k, t0).Skel? && Nk(k, 1 - t0).Skel? && k.ref in h
    requires var n, s := Nk(k, t0), Nk(k, 1 - t0);
             var y := Skel(k.ref, s.l, s.r);
             && n.ref in h && h1 == h[k.ref := h[n.ref]] && h2.Keys == h1.Keys && SameContents(h1, h2)
             && Beyond(h1, h2, {k.ref, s.ref} + Refs(s.l) + Refs(s.r)) && Tied(h2, y, h1[k.ref].aunt)
             && h2[k.ref] == h1[k.ref].(lNiece := RefOf(s.l), rNiece := RefOf(s.r))
             && Val(h2, s.l) == Val(h, s.l) && Val(h2, s.r) == Val(h, s.r)
             && Within(h2, h3, Refs(n)) && Within(h3, h4, {s.ref})
             && h5 == h4[k.ref := h4[k.ref].(aunt := NIL)]
    ensures var n, s := Nk(k, t0), Nk(k, 1 - t0);
            var y := Skel(k.ref, s.l, s.r);
            && Tied(h5, y, NIL) && Apart(y) && Refs(y) <= Refs(k) && h5.Keys == h.Keys && Beyond(h, h5, Refs(k))
            && n.ref !in Refs(y) && s.ref !in Refs(y)
            && Val(h5, y) == Pol(h[n.ref].data, Val(h, s.l), Val(h, s.r), h[n.ref].remember)
            && (forall c :: c in h && c != k.ref ==> h5[c].data == h[c].data)
  {
    hide Tied, Apart, Refs, Val;
    var n, s := Nk(k, t0), Nk(k, 1 - t0);
    var y := Skel(k.ref, s.l, s.r);
    PairOf(k, t0);
    PairFacts(k.ref, t0, n, s);
    RefsParts(n);
    RefsParts(s);
    ApartParts(s);
    RefsParts(y);
    ApartParts(y);
    var aunt := h1[k.ref].aunt;
    KeepTied(h2, h3, Refs(n), y, aunt);
    KeepTied(h3, h4, {s.ref}, y, aunt);
    TiedParts(h4, y, aunt);
    KeepTied(h4, h5, {k.ref}, s.l, k.ref);
    KeepTied(h4, h5, {k.ref}, s.r, k.ref);
    TiedParts(h5, y, NIL);
    ValueOf(h2, y);
    ValueOf(h4, y);
    ValueOf(h5, y);
  }
}
