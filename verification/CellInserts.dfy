/** Putting nodes into the pollard by their pointers. */
module CellInserts {
  import opened Hashes
  import opened Nieces
  import opened NieceEdits
  import opened Cells
  import opened CellPaths
  import opened CellEdits

  lemma SkelFacts(ref: Ref, l: Skel, r: Skel)
    ensures var k := Skel(ref, l, r);
            && Refs(k) == {ref} + Refs(l) + Refs(r)
            && (Apart(k) <==>
                  ref != NIL && ref !in Refs(l) && ref !in Refs(r) && Refs(l) !! Refs(r) && Apart(l) && Apart(r))
  {
    hide Refs, Apart;
    RefsParts(Skel(ref, l, r));
    ApartParts(Skel(ref, l, r));
  }

  /** Swap the nieces of the two nieces of a node. */
  function Crossed(ref: Ref, turn: int, n: Skel, s: Skel): Skel
    requires n.Skel? && s.Skel?
  {
    Pair(ref, turn, Skel(n.ref, s.l, s.r), Skel(s.ref, n.l, n.r))
  }

  lemma {:induction false} CrossedFacts(ref: Ref, turn: int, n: Skel, s: Skel)
    requires n.Skel? && s.Skel? && Apart(Pair(ref, turn, n, s))
    ensures Apart(Crossed(ref, turn, n, s)) && Refs(Crossed(ref, turn, n, s)) == Refs(Pair(ref, turn, n, s))
    ensures ref !in Refs(n) && ref !in Refs(s) && Refs(n) !! Refs(s) && Apart(n) && Apart(s)
  {
    hide Refs, Apart;
    PairFacts(ref, turn, n, s);
    SkelFacts(n.ref, n.l, n.r);
    SkelFacts(s.ref, s.l, s.r);
    SkelFacts(n.ref, s.l, s.r);
    SkelFacts(s.ref, n.l, n.r);
    PairFacts(ref, turn, Skel(n.ref, s.l, s.r), Skel(s.ref, n.l, n.r));
  }

  /** The nieces of two nieces are swapped. */
  method SwapBelow(h: Heap, x: Ref, l: Ref, r: Ref, ghost k: Skel, ghost aunt: Ref) returns (h': Heap)
    requires k.Skel? && k.ref == x && k.l.Skel? && k.r.Skel? && l == k.l.ref && r == k.r.ref
    requires Tied(h, k, aunt) && Apart(k)
    ensures var y := Crossed(x, 0, k.l, k.r);
            && Tied(h', y, aunt) && Apart(y) && Refs(y) == Refs(k) && Within(h, h', Refs(k))
            && Val(h', y.l) == WithNieces(Val(h, k.l), Val(h, k.r.l), Val(h, k.r.r))
            && Val(h', y.r) == WithNieces(Val(h, k.r), Val(h, k.l.l), Val(h, k.l.r))
            && x in h && x in h' && h'[x] == h[x]
  {
    hide Tied, Apart, Refs, Val, Within;
    ghost var y := Crossed(x, 0, k.l, k.r);
    CrossedFacts(x, 0, k.l, k.r);
    PairFacts(x, 0, k.l, k.r);
    TiedParts(h, k, aunt);
    TiedParts(h, k.l, x);
    TiedParts(h, k.r, x);
    h' := SwapNieces(h, l, r, k.l, k.r);
    SwappedBelow(h, h', k, aunt);
  }

  lemma {:induction false} SwappedBelow(h: Heap, h': Heap, k: Skel, aunt: Ref)
    requires k.Skel? && k.l.Skel? && k.r.Skel? && Tied(h, k, aunt) && Apart(k)
    requires h'.Keys == h.Keys && Beyond(h, h', Refs(k.l) + Refs(k.r)) && SameContents(h, h') && k.l.ref in h &&
             k.r.ref in h
    requires Tied(h', Skel(k.l.ref, k.r.l, k.r.r), k.ref) && Tied(h', Skel(k.r.ref, k.l.l, k.l.r), k.ref)
    requires Val(h', k.l.l) == Val(h, k.l.l) && Val(h', k.l.r) == Val(h, k.l.r)
    requires Val(h', k.r.l) == Val(h, k.r.l) && Val(h', k.r.r) == Val(h, k.r.r)
    ensures var y := Crossed(k.ref, 0, k.l, k.r);
            && Tied(h', y, aunt) && Within(h, h', Refs(k))
            && Val(h', y.l) == WithNieces(Val(h, k.l), Val(h, k.r.l), Val(h, k.r.r))
            && Val(h', y.r) == WithNieces(Val(h, k.r), Val(h, k.l.l), Val(h, k.l.r))
            && k.ref in h && k.ref in h' && h'[k.ref] == h[k.ref]
  {
    hide Tied, Apart, Refs, Val;
    RefsParts(k);
    ApartParts(k);
    TiedParts(h, k, aunt);
    var y := Crossed(k.ref, 0, k.l, k.r);
    TiedParts(h', y, aunt);
    ValueOf(h, k.l);
    ValueOf(h, k.r);
    ValueOf(h', y.l);
    ValueOf(h', y.r);
  }

  /** Two trees that have no cell in common, and a cell that is not in use. */
  ghost predicate TwoTrees(h: Heap, k: Skel, m: Skel, p: Ref) {
    && k.Skel? && m.Skel? && Tied(h, k, NIL) && Apart(k) && Tied(h, m, NIL) && Apart(m) && Refs(k) !! Refs(m)
    && p != NIL && p !in h
  }

  /** A root and a node side by side, below the cell of the root; the root is now in a new cell. */
  function BesideRoot(k: Skel, m: Skel, p: Ref, turn: int): Skel
    requires k.Skel?
  {
    Pair(k.ref, turn, m, Skel(p, k.l, k.r))
  }

  lemma {:induction false} BesideFixable(h: Heap, h2: Heap, k: Skel, m: Skel, p: Ref, turn: int, data: Hash, full: bool)
    requires TwoTrees(h, k, m, p) && k.ref in h && m.ref in h
    requires var y := BesideRoot(k, m, p, turn);
             h2 == h[k.ref := Cell(data, RefOf(y.l), RefOf(y.r), NIL, full)][p := h[k.ref]]
    ensures var y, q := BesideRoot(k, m, p, turn), Skel(p, k.l, k.r);
            && Fixable(h2, y) && Apart(y) && Refs(y) == Refs(k) + {p} + Refs(m) && Apart(q) && p !in Refs(k) &&
               p !in Refs(m)
            && Val(h2, k.l) == Val(h, k.l) && Val(h2, k.r) == Val(h, k.r) && Val(h2, m) == Val(h, m)
            && Tied(h2, k.l, k.ref) && Tied(h2, k.r, k.ref) && Tied(h2, m, NIL)
  {
    hide Tied, Apart, Refs, Val, Fixable;
    var y, q := BesideRoot(k, m, p, turn), Skel(p, k.l, k.r);
    TiedIn(h, k, NIL);
    TiedIn(h, m, NIL);
    SkelFacts(k.ref, k.l, k.r);
    SkelFacts(p, k.l, k.r);
    PairFacts(k.ref, turn, m, q);
    TiedParts(h, k, NIL);
    TiedParts(h, m, NIL);
    RefsParts(m);
    ApartParts(m);
    KeepTied(h, h2, {k.ref, p}, k.l, k.ref);
    KeepTied(h, h2, {k.ref, p}, k.r, k.ref);
    KeepTied(h, h2, {k.ref, p}, m, NIL);
    TiedParts(h2, m, NIL);
    MovedFixable(h2, q, k.ref);
    TiedFixable(h2, m, NIL);
    PairFixable(h2, k.ref, turn, m, q);
  }

  /** Two nieces that hang from nowhere. */
  lemma {:induction false} PairFixable(h: Heap, ref: Ref, turn: int, n: Skel, s: Skel)
    requires n.Skel? && s.Skel? && ref in h && n.ref in h && s.ref in h && Fixable(h, n) && Fixable(h, s) && ref != NIL
    requires h[n.ref].aunt != ref && h[s.ref].aunt != ref && Points(h, Pair(ref, turn, n, s))
    ensures Fixable(h, Pair(ref, turn, n, s))
  {
    hide Tied;
  }

  /** Undo the deletion of a child of a root: the root moves down beside the node that was deleted. */
  method PutBesideRoot(h: Heap, root: Ref, node: Ref, p: Ref, right: bool, pHash: Hash, full: bool, ghost k: Skel,
                       ghost m: Skel)
    returns (h': Heap)
    requires TwoTrees(h, k, m, p) && root == k.ref && node == m.ref
    ensures var t := if right then 1 else 0;
            var y := Crossed(root, t, m, Skel(p, k.l, k.r));
            && Tied(h', y, NIL) && Apart(y) && Refs(y) == Refs(k) + {p} + Refs(m) && h'.Keys == h.Keys + {p}
            && Beyond(h, h', Refs(k) + Refs(m))
            && root in h && (forall c :: c in h && c != root ==> h'[c].data == h[c].data) && h'[p].data == h[root].data
            && Val(h', y).Pol? && Val(h', y).data == pHash && Val(h', y).remember == full
            && Niece(Val(h', y), t) == WithNieces(Val(h, m), Val(h, k.l), Val(h, k.r))
            && Niece(Val(h', y), 1 - t) == WithNieces(Val(h, k), Val(h, m.l), Val(h, m.r))
  {
    hide Tied, Apart, Refs, Val, Fixable, Within, OnlyAunts;
    ghost var t := if right then 1 else 0;
    ghost var y, q := BesideRoot(k, m, p, t), Skel(p, k.l, k.r);
    TiedParts(h, k, NIL);
    TiedParts(h, m, NIL);
    h' := h[root := Cell(pHash, NIL, NIL, NIL, full)][p := h[root]];
    RootsDiffer(h, k, p);
    if !right {
      h' := h'[root := h'[root].(lNiece := node, rNiece := p)];
    } else {
      h' := h'[root := h'[root].(lNiece := p, rNiece := node)];
    }
    ghost var h2 := h';
    assert h2 == h[root := Cell(pHash, RefOf(y.l), RefOf(y.r), NIL, full)][p := h[root]];
    BesideFixable(h, h2, k, m, p, t, pHash, full);
    FixableHangs(h', y);
    h' := UpdateAunt(h', root, y);
    ghost var h3 := h';
    BesideTied(h2, h3, k, m, p, t);
    h' := UpdateRight(h', p, q);
    h' := SwapBelow(h', root, h'[root].lNiece, h'[root].rNiece, y, NIL);
    BesideDone(h, h2, h3, h', k, m, p, t, pHash, full);
  }

  lemma RootsDiffer(h: Heap, k: Skel, p: Ref)
    requires k.Skel? && k.ref in h && p !in h
    ensures k.ref != p
  {
  }

  lemma {:induction false} BesideTied(h2: Heap, h3: Heap, k: Skel, m: Skel, p: Ref, turn: int)
    requires k.Skel? && m.Skel? && Tied(h3, BesideRoot(k, m, p, turn), NIL)
    ensures var y, q := BesideRoot(k, m, p, turn), Skel(p, k.l, k.r);
            && k.ref in h3 && p in h3 && h3[p].aunt == k.ref && Tied(h3, q, k.ref)
            && y.l.Skel? && y.r.Skel? && h3[k.ref].lNiece == y.l.ref && h3[k.ref].rNiece == y.r.ref
  {
    hide Tied;
    var y, q := BesideRoot(k, m, p, turn), Skel(p, k.l, k.r);
    TiedNieces(h3, y, NIL, turn);
    PairParts(k.ref, turn, m, q);
    TiedParts(h3, q, k.ref);
  }

  lemma PairParts(ref: Ref, turn: int, n: Skel, s: Skel)
    ensures Nk(Pair(ref, turn, n, s), turn) == n && Nk(Pair(ref, turn, n, s), 1 - turn) == s
  {
  }

  lemma {:induction false} BesideDone(h: Heap, h2: Heap, h3: Heap, h4: Heap, k: Skel, m: Skel, p: Ref, turn: int,
                                      data: Hash, full: bool)
    requires TwoTrees(h, k, m, p) && k.ref in h && m.ref in h && (turn == 0 || turn == 1)
    requires var y := BesideRoot(k, m, p, turn);
             && h2 == h[k.ref := Cell(data, RefOf(y.l), RefOf(y.r), NIL, full)][p := h[k.ref]]
             && Refs(y) == Refs(k) + {p} + Refs(m) && Apart(y) && OnlyAunts(h2, h3, Refs(y) - {k.ref}) && y.l.Skel? &&
                y.r.Skel?
             && Val(h2, k.l) == Val(h, k.l) && Val(h2, k.r) == Val(h, k.r) && Val(h2, m) == Val(h, m)
             && var z := Crossed(k.ref, 0, y.l, y.r);
             && Tied(h4, z, NIL) && Apart(z) && Refs(z) == Refs(y) && Within(h3, h4, Refs(y))
             && Val(h4, z.l) == WithNieces(Val(h3, y.l), Val(h3, y.r.l), Val(h3, y.r.r))
             && Val(h4, z.r) == WithNieces(Val(h3, y.r), Val(h3, y.l.l), Val(h3, y.l.r))
             && k.ref in h3 && k.ref in h4 && h4[k.ref] == h3[k.ref]
    ensures var y := Crossed(k.ref, turn, m, Skel(p, k.l, k.r));
            && Tied(h4, y, NIL) && Apart(y) && Refs(y) == Refs(k) + {p} + Refs(m) && h4.Keys == h.Keys + {p}
            && Beyond(h, h4, Refs(k) + Refs(m))
            && (forall c :: c in h && c != k.ref ==> h4[c].data == h[c].data) && h4[p].data == h[k.ref].data
            && Val(h4, y).Pol? && Val(h4, y).data == data && Val(h4, y).remember == full
            && Niece(Val(h4, y), turn) == WithNieces(Val(h, m), Val(h, k.l), Val(h, k.r))
            && Niece(Val(h4, y), 1 - turn) == WithNieces(Val(h, k), Val(h, m.l), Val(h, m.r))
  {
    hide Tied, Apart, Refs, Val;
    var y, q := BesideRoot(k, m, p, turn), Skel(p, k.l, k.r);
    var z := Crossed(k.ref, turn, m, q);
    assert z == Crossed(k.ref, 0, y.l, y.r);
    var s := Refs(y) - {k.ref};
    SameValue(h2, h3, s, m);
    SameValue(h2, h3, s, q);
    SameValue(h2, h3, s, k.l);
    SameValue(h2, h3, s, k.r);
    SameValue(h2, h3, s, m.l);
    SameValue(h2, h3, s, m.r);
    RefsParts(k);
    ValueOf(h, k);
    ValueOf(h, m);
    ValueOf(h2, m);
    ValueOf(h2, q);
    ValueOf(h4, z);
  }

  /** What takes part when a node is put in the place of a niece of `x`. */
  ghost predicate Replacing(h: Heap, x: Skel, aunt: Ref, t: int, p: Ref) {
    && x.Skel? && Tied(h, x, aunt) && Apart(x) && Nk(x, t).Skel? && Nk(x, 1 - t).Skel?
    && p in h && p != NIL && p !in Refs(x) && h[p].lNiece == NIL && h[p].rNiece == NIL && h[p].aunt == NIL
  }

  lemma {:induction false} ReplacedTied(h: Heap, x: Skel, aunt: Ref, t: int, p: Ref)
    requires Replacing(h, x, aunt, t, p)
    ensures var n, s := Nk(x, t), Nk(x, 1 - t);
            && x.ref in h && n.ref in h && h[n.ref].aunt == x.ref && x.ref != NIL && x.ref != p && p != n.ref &&
               n.ref != NIL
            && var h' := Replaced(h, p, n.ref);
            && var y := Pair(x.ref, t, Skel(p, NoSkel, NoSkel), s);
            && Tied(h', y, aunt) && Apart(y) && y.Skel? && y.ref == x.ref && x.ref in h' && h'[x.ref].aunt == aunt
            && Within(h, h', {x.ref, p}) && Tied(h', n, x.ref) && Val(h', n) == Val(h, n)
            && Tied(h', s, x.ref) && Val(h', s) == Val(h, s) && h'[p].aunt == x.ref
  {
    hide Tied, Apart, Refs, Val;
    var n, s := Nk(x, t), Nk(x, 1 - t);
    PairOf(x, t);
    PairFacts(x.ref, t, n, s);
    RefsParts(n);
    RefsParts(s);
    ApartParts(n);
    ApartParts(s);
    TiedNieces(h, x, aunt, t);
    TiedNieces(h, n, x.ref, 0);
    var h1 := Repoint(h, x.ref, n.ref, p);
    Repointed(h, x.ref, t, n.ref, p);
    var h' := Replaced(h, p, n.ref);
    assert h' == h1[p := h1[p].(aunt := x.ref)];
    KeepTied(h, h', {x.ref, p}, n, x.ref);
    KeepTied(h, h', {x.ref, p}, s, x.ref);
    var k := Skel(p, NoSkel, NoSkel);
    TiedNothing();
    NoApart();
    SkelFacts(p, NoSkel, NoSkel);
    TiedParts(h', k, x.ref);
    PairTied(h', x.ref, t, k, s, aunt);
    PairFacts(x.ref, t, k, s);
  }

  /** A new node takes the place of a niece, and its nieces. */
  method TakePlace(h: Heap, p: Ref, n: Ref, ghost x: Skel, ghost aunt: Ref, ghost t: int) returns (h': Heap)
    requires Replacing(h, x, aunt, t, p) && n == Nk(x, t).ref
    ensures var k, s := Nk(x, t), Nk(x, 1 - t);
            var q := Skel(p, k.l, k.r);
            && n in h && n in h' && Tied(h', Pair(x.ref, t, q, s), aunt) && Tied(h', s, x.ref) &&
               Val(h', s) == Val(h, s)
            && h'[n] == h[n].(lNiece := NIL, rNiece := NIL) && h[n].aunt == x.ref
            && Within(h, h', {x.ref, p} + Refs(k)) && Tied(h', q, x.ref)
            && Val(h', k.l) == Val(h, k.l) && Val(h', k.r) == Val(h, k.r)
  {
    hide Tied, Apart, Refs, Val, Within;
    ghost var k, s := Nk(x, t), Nk(x, 1 - t);
    ghost var q := Skel(p, k.l, k.r);
    PairOf(x, t);
    PairFacts(x.ref, t, k, s);
    RefsParts(k);
    ApartParts(k);
    ReplacedTied(h, x, aunt, t, p);
    h' := TransferAunt(h, p, n, Pair(x.ref, t, Skel(p, NoSkel, NoSkel), s));
    ghost var h1 := h';
    WithinParts(h, h1, {x.ref, p});
    TiedParts(h1, k, x.ref);
    h' := TransferNiece(h', p, n, k);
    ghost var h2 := h';
    PlaceTaken(h, h1, h2, x, aunt, t, p);
    h' := UpdateRight(h', p, q);
  }

  lemma WithinParts(h: Heap, h': Heap, s: set<Ref>)
    requires Within(h, h', s)
    ensures h'.Keys == h.Keys && forall x :: x in h && x !in s ==> h'[x] == h[x]
  {
  }

  lemma {:induction false} PlaceTaken(h: Heap, h1: Heap, h2: Heap, x: Skel, aunt: Ref, t: int, p: Ref)
    requires Replacing(h, x, aunt, t, p) && Within(h, h1, {x.ref, p})
    requires var k, s := Nk(x, t), Nk(x, 1 - t);
             var q := Skel(p, k.l, k.r);
             && Tied(h1, Pair(x.ref, t, Skel(p, NoSkel, NoSkel), s), aunt) && Tied(h1, s, x.ref) &&
                Val(h1, s) == Val(h, s)
             && Val(h1, k) == Val(h, k) && p in h1 && h1[p].aunt == x.ref && k.ref in h1 && k.ref in h
             && h2.Keys == h1.Keys && SameContents(h1, h2) && Beyond(h1, h2, {p, k.ref} + Refs(k.l) + Refs(k.r))
             && Tied(h2, q, h1[p].aunt) && h2[k.ref] == h1[k.ref].(lNiece := NIL, rNiece := NIL)
             && h2[p] == h1[p].(lNiece := RefOf(k.l), rNiece := RefOf(k.r))
             && Val(h2, k.l) == Val(h1, k.l) && Val(h2, k.r) == Val(h1, k.r)
    ensures var k, s := Nk(x, t), Nk(x, 1 - t);
            var q := Skel(p, k.l, k.r);
            && Tied(h2, Pair(x.ref, t, q, s), aunt) && Tied(h2, s, x.ref) && Val(h2, s) == Val(h, s) && Apart(q)
            && h2[k.ref] == h[k.ref].(lNiece := NIL, rNiece := NIL) && Within(h, h2, {x.ref, p} + Refs(k))
            && Val(h2, k.l) == Val(h, k.l) && Val(h2, k.r) == Val(h, k.r) && p in h2 && h2[p].aunt == x.ref
  {
    hide Tied, Apart, Refs, Val;
    var k, s := Nk(x, t), Nk(x, 1 - t);
    var q := Skel(p, k.l, k.r);
    PairOf(x, t);
    PairFacts(x.ref, t, k, s);
    SkelFacts(k.ref, k.l, k.r);
    SkelFacts(p, k.l, k.r);
    RefsParts(k);
    var y := Pair(x.ref, t, Skel(p, NoSkel, NoSkel), s);
    PairFacts(x.ref, t, Skel(p, NoSkel, NoSkel), s);
    TiedNieces(h1, y, aunt, t);
    KeepTied(h1, h2, {p, k.ref} + Refs(k.l) + Refs(k.r), s, x.ref);
    PairTied(h2, x.ref, t, q, s, aunt);
    ValueOf(h, k);
    ValueOf(h1, k);
  }

  /** What takes part when a node and another that hangs from nowhere are hung from `k` instead of its nieces. */
  ghost predicate Hanging(h: Heap, k: Skel, aunt: Ref, m: Skel, n: Ref) {
    && k.Skel? && m.Skel? && Tied(h, k, aunt) && Apart(k) && Tied(h, m, NIL) && Apart(m) && Refs(k) !! Refs(m)
    && n in h && n != NIL && n !in Refs(k) && n !in Refs(m)
    && h[n].lNiece == NIL && h[n].rNiece == NIL && h[n].aunt != k.ref
  }

  lemma {:induction false} HangFixable(h: Heap, h3: Heap, k: Skel, aunt: Ref, m: Skel, n: Ref, t: int)
    requires Hanging(h, k, aunt, m, n) && k.ref in h
    requires var z := Pair(k.ref, t, m, Skel(n, NoSkel, NoSkel));
             h3 == h[k.ref := h[k.ref].(lNiece := RefOf(z.l), rNiece := RefOf(z.r))]
    ensures var z := Pair(k.ref, t, m, Skel(n, NoSkel, NoSkel));
            && Fixable(h3, z) && Apart(z) && Refs(z) == {k.ref, n} + Refs(m) && h3[k.ref].aunt == aunt
            && Tied(h3, k.l, k.ref) && Tied(h3, k.r, k.ref) && Val(h3, k.l) == Val(h, k.l) &&
               Val(h3, k.r) == Val(h, k.r)
            && Val(h3, m) == Val(h, m)
  {
    hide Tied, Apart, Refs, Val, Fixable;
    var q := Skel(n, NoSkel, NoSkel);
    var z := Pair(k.ref, t, m, q);
    RefsParts(k);
    ApartParts(k);
    RefsParts(m);
    ApartParts(m);
    TiedNothing();
    NoApart();
    SkelFacts(n, NoSkel, NoSkel);
    PairFacts(k.ref, t, m, q);
    TiedParts(h, k, aunt);
    TiedParts(h, m, NIL);
    KeepTied(h, h3, {k.ref}, k.l, k.ref);
    KeepTied(h, h3, {k.ref}, k.r, k.ref);
    KeepTied(h, h3, {k.ref}, m, NIL);
    TiedParts(h3, m, NIL);
    TiedParts(h3, q, h3[n].aunt);
    TiedFixable(h3, m, NIL);
    TiedFixable(h3, q, h3[n].aunt);
    PairFixable(h3, k.ref, t, m, q);
  }

  /** Hang two nodes from `x` instead of its nieces, which the first of them gets, and the second gets those of the
      first. */
  method HangBoth(h: Heap, x: Ref, node: Ref, n: Ref, right: bool, ghost k: Skel, ghost aunt: Ref, ghost m: Skel)
    returns (h': Heap)
    requires Hanging(h, k, aunt, m, n) && x == k.ref && node == m.ref
    ensures var t := if right then 1 else 0;
            var y := Pair(x, t, Skel(node, k.l, k.r), Skel(n, m.l, m.r));
            && Tied(h', y, aunt) && Apart(y) && Refs(y) == Refs(k) + Refs(m) + {n} &&
               Within(h, h', Refs(k) + Refs(m) + {n})
            && x in h && node in h && x in h' && h'[x].data == h[x].data && h'[x].remember == h[x].remember
            && Val(h', Skel(node, k.l, k.r)) == WithNieces(Val(h, m), Val(h, k.l), Val(h, k.r))
            && Val(h', Skel(n, m.l, m.r)) == Pol(h[n].data, Val(h, m.l), Val(h, m.r), h[n].remember)
  {
    hide Tied, Apart, Refs, Val, Within, Fixable, OnlyAunts;
    ghost var t := if right then 1 else 0;
    ghost var q := Skel(n, NoSkel, NoSkel);
    ghost var z := Pair(x, t, m, q);
    TiedParts(h, k, aunt);
    TiedParts(h, m, NIL);
    var auntL, auntR := h[x].lNiece, h[x].rNiece;
    h' := h;
    if !right {
      h' := h'[x := h'[x].(lNiece := node, rNiece := n)];
    } else {
      h' := h'[x := h'[x].(lNiece := n, rNiece := node)];
    }
    ghost var h3 := h';
    HangFixable(h, h3, k, aunt, m, n, t);
    FixableHangs(h', z);
    h' := UpdateAunt(h', x, z);
    ghost var h4 := h';
    HungTied(h, h3, h4, k, aunt, m, n, t);
    h' := TransferNiece(h', n, node, m);
    ghost var h5 := h';
    h' := h'[node := h'[node].(lNiece := auntL, rNiece := auntR)];
    ghost var h6 := h';
    HungFixable(h, h3, h4, h5, h6, k, aunt, m, n, t);
    FixableHangs(h', Skel(node, k.l, k.r));
    h' := UpdateAunt(h', node, Skel(node, k.l, k.r));
    HungDone(h, h3, h4, h5, h6, h', k, aunt, m, n, t);
  }

  lemma {:induction false} HungTied(h: Heap, h3: Heap, h4: Heap, k: Skel, aunt: Ref, m: Skel, n: Ref, t: int)
    requires Hanging(h, k, aunt, m, n) && k.ref in h && h3.Keys == h.Keys
    requires var z := Pair(k.ref, t, m, Skel(n, NoSkel, NoSkel));
             && Apart(z) && Refs(z) == {k.ref, n} + Refs(m) && OnlyAunts(h3, h4, Refs(z) - {k.ref}) && Tied(h4, z, aunt)
             && Tied(h3, k.l, k.ref) && Tied(h3, k.r, k.ref)
    ensures m.ref in h4 && n in h4 && m.ref != n && Points(h4, m) && Tied(h4, m.l, m.ref) && Tied(h4, m.r, m.ref)
    ensures h4[n].aunt == k.ref && h4[m.ref].aunt == k.ref && h4.Keys == h.Keys
    ensures Tied(h4, k.l, k.ref) && Tied(h4, k.r, k.ref)
    ensures Val(h4, k.l) == Val(h3, k.l) && Val(h4, k.r) == Val(h3, k.r) && Val(h4, m) == Val(h3, m)
  {
    hide Tied, Apart, Refs, Val;
    var q := Skel(n, NoSkel, NoSkel);
    var z := Pair(k.ref, t, m, q);
    PairFacts(k.ref, t, m, q);
    TiedNieces(h4, z, aunt, t);
    TiedNieces(h4, m, k.ref, 0);
    TiedNieces(h4, q, k.ref, 0);
    RefsParts(m);
    RefsParts(k);
    ApartParts(k);
    KeepTied(h3, h4, Refs(z) - {k.ref}, k.l, k.ref);
    KeepTied(h3, h4, Refs(z) - {k.ref}, k.r, k.ref);
    SameValue(h3, h4, Refs(z) - {k.ref}, m);
  }

  /** The heaps on the way. */
  ghost predicate Hung(h: Heap, h3: Heap, h4: Heap, h5: Heap, h6: Heap, k: Skel, aunt: Ref, m: Skel, n: Ref, t: int) {
    && Hanging(h, k, aunt, m, n) && k.ref in h && m.ref in h && m.ref != n
    && (var z := Pair(k.ref, t, m, Skel(n, NoSkel, NoSkel));
        && h3 == h[k.ref := h[k.ref].(lNiece := RefOf(z.l), rNiece := RefOf(z.r))]
        && OnlyAunts(h3, h4, Refs(z) - {k.ref}) && Refs(z) == {k.ref, n} + Refs(m) && Tied(h4, z, aunt))
    && h4.Keys == h.Keys && h4[n].aunt == k.ref && h4[m.ref].aunt == k.ref && Val(h4, m) == Val(h, m)
    && Tied(h4, k.l, k.ref) && Tied(h4, k.r, k.ref) && Val(h4, k.l) == Val(h, k.l) && Val(h4, k.r) == Val(h, k.r)
    && h5.Keys == h.Keys && Beyond(h4, h5, {n, m.ref} + Refs(m.l) + Refs(m.r)) && Tied(h5, Skel(n, m.l, m.r), k.ref)
    && h5[n] == h4[n].(lNiece := RefOf(m.l), rNiece := RefOf(m.r)) && SameContents(h4, h5)
    && h5[m.ref] == h4[m.ref].(lNiece := NIL, rNiece := NIL)
    && Val(h5, m.l) == Val(h4, m.l) && Val(h5, m.r) == Val(h4, m.r)
    && h6 == h5[m.ref := h5[m.ref].(lNiece := RefOf(k.l), rNiece := RefOf(k.r))]
  }

  lemma {:induction false} HungPieces(k: Skel, m: Skel, n: Ref)
    requires k.Skel? && m.Skel? && Apart(k) && Apart(m) && Refs(k) !! Refs(m) && n != NIL && n !in Refs(k) &&
             n !in Refs(m)
    ensures Refs(k) == {k.ref} + Refs(k.l) + Refs(k.r) && Refs(m) == {m.ref} + Refs(m.l) + Refs(m.r)
    ensures k.ref !in Refs(k.l) && k.ref !in Refs(k.r) && m.ref !in Refs(m.l) && m.ref !in Refs(m.r) && k.ref != NIL
    ensures Apart(Skel(m.ref, k.l, k.r)) && Apart(Skel(n, m.l, m.r))
    ensures Refs(Skel(m.ref, k.l, k.r)) == {m.ref} + Refs(k.l) + Refs(k.r)
    ensures Refs(Skel(n, m.l, m.r)) == {n} + Refs(m.l) + Refs(m.r)
  {
    hide Apart, Refs;
    RefsParts(k);
    ApartParts(k);
    RefsParts(m);
    ApartParts(m);
    SkelFacts(m.ref, k.l, k.r);
    SkelFacts(n, m.l, m.r);
  }

  lemma {:induction false} HungFixable(h: Heap, h3: Heap, h4: Heap, h5: Heap, h6: Heap, k: Skel, aunt: Ref, m: Skel,
                                       n: Ref, t: int)
    requires Hung(h, h3, h4, h5, h6, k, aunt, m, n, t)
    ensures Fixable(h6, Skel(m.ref, k.l, k.r)) && Apart(Skel(m.ref, k.l, k.r)) && h6[m.ref].aunt == k.ref
    ensures Tied(h6, k.l, k.ref) && Tied(h6, k.r, k.ref) && Val(h6, k.l) == Val(h, k.l) && Val(h6, k.r) == Val(h, k.r)
  {
    hide Tied, Apart, Refs, Val, Fixable;
    HungPieces(k, m, n);
    var moved := {n, m.ref} + Refs(m.l) + Refs(m.r);
    KeepTied(h4, h6, moved, k.l, k.ref);
    KeepTied(h4, h6, moved, k.r, k.ref);
    MovedFixable(h6, Skel(m.ref, k.l, k.r), k.ref);
  }

  lemma {:induction false} HungDone(h: Heap, h3: Heap, h4: Heap, h5: Heap, h6: Heap, h7: Heap, k: Skel, aunt: Ref,
                                    m: Skel, n: Ref, t: int)
    requires Hung(h, h3, h4, h5, h6, k, aunt, m, n, t)
    requires OnlyAunts(h6, h7, Refs(Skel(m.ref, k.l, k.r)) - {m.ref}) && Tied(h7, Skel(m.ref, k.l, k.r), k.ref)
    requires Val(h6, k.l) == Val(h, k.l) && Val(h6, k.r) == Val(h, k.r)
    ensures var y := Pair(k.ref, t, Skel(m.ref, k.l, k.r), Skel(n, m.l, m.r));
            && Tied(h7, y, aunt) && Apart(y) && Refs(y) == Refs(k) + Refs(m) + {n} &&
               Within(h, h7, Refs(k) + Refs(m) + {n})
            && k.ref in h7 && h7[k.ref].data == h[k.ref].data && h7[k.ref].remember == h[k.ref].remember
            && Val(h7, Skel(m.ref, k.l, k.r)) == WithNieces(Val(h, m), Val(h, k.l), Val(h, k.r))
            && Val(h7, Skel(n, m.l, m.r)) == Pol(h[n].data, Val(h, m.l), Val(h, m.r), h[n].remember)
  {
    hide Tied, Apart, Refs, Val, Within;
    var m', n' := Skel(m.ref, k.l, k.r), Skel(n, m.l, m.r);
    HungContents(h, h3, h4, h5, h6, h7, k, aunt, m, n, t);
    HungNodes(h, h3, h4, h5, h6, h7, k, aunt, m, n, t);
    HungPieces(k, m, n);
    PairFacts(k.ref, t, m', n');
    HungTop(h, h3, h4, h5, h6, h7, k, aunt, m, n, t);
    PairTied(h7, k.ref, t, m', n', aunt);
  }

  /** The cell from which the nodes hang. */
  lemma {:induction false} HungTop(h: Heap, h3: Heap, h4: Heap, h5: Heap, h6: Heap, h7: Heap, k: Skel, aunt: Ref,
                                   m: Skel, n: Ref, t: int)
    requires Hung(h, h3, h4, h5, h6, k, aunt, m, n, t)
    requires OnlyAunts(h6, h7, Refs(Skel(m.ref, k.l, k.r)) - {m.ref})
    ensures k.ref in h7 && h7[k.ref].data == h[k.ref].data && h7[k.ref].remember == h[k.ref].remember
    ensures h7[k.ref].aunt == aunt && NieceRef(h7[k.ref], t) == m.ref && NieceRef(h7[k.ref], 1 - t) == n
  {
    hide Tied, Apart, Refs, Val;
    HungPieces(k, m, n);
    var z := Pair(k.ref, t, m, Skel(n, NoSkel, NoSkel));
    PairFacts(k.ref, t, m, Skel(n, NoSkel, NoSkel));
    TiedNieces(h4, z, aunt, t);
    assert h7[k.ref] == h4[k.ref];
  }

  /** The nodes that hang from it. */
  lemma {:induction false} HungNodes(h: Heap, h3: Heap, h4: Heap, h5: Heap, h6: Heap, h7: Heap, k: Skel, aunt: Ref,
                                     m: Skel, n: Ref, t: int)
    requires Hung(h, h3, h4, h5, h6, k, aunt, m, n, t)
    requires OnlyAunts(h6, h7, Refs(Skel(m.ref, k.l, k.r)) - {m.ref})
    requires Within(h, h7, Refs(k) + Refs(m) + {n}) && Val(h6, k.l) == Val(h, k.l) && Val(h6, k.r) == Val(h, k.r)
    ensures Tied(h7, Skel(n, m.l, m.r), k.ref)
    ensures Val(h7, Skel(m.ref, k.l, k.r)) == WithNieces(Val(h, m), Val(h, k.l), Val(h, k.r))
    ensures Val(h7, Skel(n, m.l, m.r)) == Pol(h[n].data, Val(h, m.l), Val(h, m.r), h[n].remember)
  {
    hide Tied, Apart, Refs, Val;
    var m', n' := Skel(m.ref, k.l, k.r), Skel(n, m.l, m.r);
    HungPieces(k, m, n);
    KeepTied(h5, h6, {m.ref}, n', k.ref);
    KeepTied(h6, h7, Refs(m') - {m.ref}, n', k.ref);
    SameValue(h6, h7, Refs(m') - {m.ref}, k.l);
    SameValue(h6, h7, Refs(m') - {m.ref}, k.r);
    ValueOf(h, m);
    ValueOf(h4, m);
    ValueOf(h5, n');
    ValueOf(h7, n');
    ValueOf(h7, m');
  }

  lemma AuntsWithin(h: Heap, h': Heap, s: set<Ref>, t: set<Ref>)
    requires OnlyAunts(h, h', s) && s <= t
    ensures Within(h, h', t)
  {
  }

  lemma WithinTwice(h: Heap, h1: Heap, h2: Heap, s: set<Ref>)
    requires Within(h, h1, s) && Within(h1, h2, s)
    ensures Within(h, h2, s)
  {
  }

  lemma BeyondWithin(h: Heap, h': Heap, s: set<Ref>, t: set<Ref>)
    requires h'.Keys == h.Keys && SameContents(h, h') && Beyond(h, h', s) && s <= t
    ensures Within(h, h', t)
  {
  }

  lemma {:induction false} HungContents(h: Heap, h3: Heap, h4: Heap, h5: Heap, h6: Heap, h7: Heap, k: Skel, aunt: Ref,
                                        m: Skel, n: Ref, t: int)
    requires Hung(h, h3, h4, h5, h6, k, aunt, m, n, t)
    requires OnlyAunts(h6, h7, Refs(Skel(m.ref, k.l, k.r)) - {m.ref})
    ensures Within(h, h7, Refs(k) + Refs(m) + {n})
  {
    hide Tied, Apart, Refs, Val, Within, OnlyAunts, Beyond, SameContents;
    var s := Refs(k) + Refs(m) + {n};
    HungPieces(k, m, n);
    var z := Pair(k.ref, t, m, Skel(n, NoSkel, NoSkel));
    WithinNone(h, s);
    assert h3 == SetCell(h, h, k.ref, h[k.ref].(lNiece := RefOf(z.l), rNiece := RefOf(z.r)), s);
    AuntsWithin(h3, h4, Refs(z) - {k.ref}, s);
    WithinTwice(h, h3, h4, s);
    BeyondWithin(h4, h5, {n, m.ref} + Refs(m.l) + Refs(m.r), s);
    WithinTwice(h, h4, h5, s);
    assert h6 == SetCell(h, h5, m.ref, h5[m.ref].(lNiece := RefOf(k.l), rNiece := RefOf(k.r)), s);
    AuntsWithin(h6, h7, Refs(Skel(m.ref, k.l, k.r)) - {m.ref}, s);
    WithinTwice(h, h6, h7, s);
  }

  /** What takes part when a deletion below a root is undone: the node `x` from which the node that moved up and its
      sibling hang, the node that was deleted, and a cell that is not in use. */
  ghost predicate Undoing(h: Heap, x: Skel, aunt: Ref, t: int, m: Skel, p: Ref) {
    && x.Skel? && Tied(h, x, aunt) && Apart(x) && Nk(x, t).Skel? && Nk(x, 1 - t).Skel?
    && m.Skel? && Tied(h, m, NIL) && Apart(m) && Refs(x) !! Refs(m) && p != NIL && p !in h
  }

  /** What hangs from `x` then. */
  function PutBeside(x: Skel, t: int, m: Skel, p: Ref, side: int): Skel
    requires x.Skel? && Nk(x, t).Skel? && Nk(x, 1 - t).Skel? && m.Skel?
  {
    var n, s := Nk(x, t), Nk(x, 1 - t);
    Pair(x.ref, t, Skel(p, n.l, n.r), Pair(s.ref, side, Skel(m.ref, s.l, s.r), Skel(n.ref, m.l, m.r)))
  }

  /** The node that moved up moves down again, beside the node that was deleted; a new node takes its place. */
  method MoveDown(h: Heap, n: Ref, s: Ref, node: Ref, p: Ref, right: bool, pHash: Hash, full: bool, ghost x: Skel,
                  ghost aunt: Ref, ghost t: int, ghost m: Skel)
    returns (h': Heap)
    requires Undoing(h, x, aunt, t, m, p) && n == Nk(x, t).ref && s == Nk(x, 1 - t).ref && node == m.ref
    ensures var side := if right then 1 else 0;
            var y := PutBeside(x, t, m, p, side);
            && Tied(h', y, aunt) && Apart(y) && Refs(y) == Refs(x) + Refs(m) + {p} && h'.Keys == h.Keys + {p}
            && Beyond(h, h', Refs(x) + Refs(m)) && (forall c :: c in h ==> h'[c].data == h[c].data)
            && x.ref in h && h'[x.ref].remember == h[x.ref].remember && h'[p].data == pHash
            && Val(h', Nk(y, t)) == Pol(pHash, Val(h, Nk(x, t).l), Val(h, Nk(x, t).r), full)
            && Val(h', Nk(y, 1 - t)).Pol? && DataOf(Val(h', Nk(y, 1 - t))) == DataOf(Val(h, Nk(x, 1 - t)))
            && RememberOf(Val(h', Nk(y, 1 - t))) == RememberOf(Val(h, Nk(x, 1 - t)))
            && Niece(Val(h', Nk(y, 1 - t)), side) == WithNieces(Val(h, m), Val(h, Nk(x, 1 - t).l),
                                                                Val(h, Nk(x, 1 - t).r))
            && Niece(Val(h', Nk(y, 1 - t)), 1 - side) == WithNieces(Val(h, Nk(x, t)), Val(h, m.l), Val(h, m.r))
  {
    hide Tied, Apart, Refs, Val, Within;
    ghost var side := if right then 1 else 0;
    ghost var k, l := Nk(x, t), Nk(x, 1 - t);
    h' := h[p := Cell(pHash, NIL, NIL, NIL, full)];
    ghost var h0 := h';
    NewCell(h, h0, x, aunt, t, m, p);
    h' := TakePlace(h', p, n, x, aunt, t);
    ghost var h1 := h';
    ReadyToHang(h, h0, h1, x, aunt, t, m, p);
    h' := HangBoth(h', s, node, n, right, l, x.ref, m);
    AllPut(h, h0, h1, h', x, aunt, t, m, p, side);
  }

  lemma {:induction false} NewCell(h: Heap, h0: Heap, x: Skel, aunt: Ref, t: int, m: Skel, p: Ref)
    requires Undoing(h, x, aunt, t, m, p) && p in h0 && h0 == h[p := h0[p]]
    requires h0[p].lNiece == NIL && h0[p].rNiece == NIL && h0[p].aunt == NIL
    ensures Replacing(h0, x, aunt, t, p) && Tied(h0, m, NIL) && Val(h0, m) == Val(h, m) && p !in Refs(m)
    ensures Val(h0, Nk(x, t)) == Val(h, Nk(x, t)) && Val(h0, Nk(x, 1 - t)) == Val(h, Nk(x, 1 - t))
    ensures Val(h0, Nk(x, t).l) == Val(h, Nk(x, t).l) && Val(h0, Nk(x, t).r) == Val(h, Nk(x, t).r)
  {
    hide Tied, Apart, Refs, Val;
    TiedIn(h, x, aunt);
    TiedIn(h, m, NIL);
    KeepTied(h, h0, {p}, x, aunt);
    KeepTied(h, h0, {p}, m, NIL);
    PairOf(x, t);
    PairFacts(x.ref, t, Nk(x, t), Nk(x, 1 - t));
    TiedNieces(h, x, aunt, t);
    KeepTied(h, h0, {p}, Nk(x, t), x.ref);
    KeepTied(h, h0, {p}, Nk(x, 1 - t), x.ref);
    TiedNieces(h, Nk(x, t), x.ref, 0);
    ValueOf(h, Nk(x, t));
    ValueOf(h0, Nk(x, t));
  }

  lemma {:induction false} ReadyToHang(h: Heap, h0: Heap, h1: Heap, x: Skel, aunt: Ref, t: int, m: Skel, p: Ref)
    requires Undoing(h, x, aunt, t, m, p) && Replacing(h0, x, aunt, t, p) && Tied(h0, m, NIL) && p !in Refs(m)
    requires var k, s := Nk(x, t), Nk(x, 1 - t);
             && k.ref in h0 && k.ref in h1 && Tied(h1, s, x.ref) &&
                h1[k.ref] == h0[k.ref].(lNiece := NIL, rNiece := NIL)
             && h0[k.ref].aunt == x.ref && Within(h0, h1, {x.ref, p} + Refs(k))
    ensures Hanging(h1, Nk(x, 1 - t), x.ref, m, Nk(x, t).ref) && Val(h1, m) == Val(h0, m)
  {
    hide Tied, Apart, Refs, Val;
    var k, s := Nk(x, t), Nk(x, 1 - t);
    PairOf(x, t);
    PairFacts(x.ref, t, k, s);
    RefsParts(k);
    ApartParts(k);
    RefsParts(s);
    KeepTied(h0, h1, {x.ref, p} + Refs(k), m, NIL);
  }

  lemma {:induction false} AllPut(h: Heap, h0: Heap, h1: Heap, h2: Heap, x: Skel, aunt: Ref, t: int, m: Skel, p: Ref,
                                  side: int)
    requires Undoing(h, x, aunt, t, m, p) && Replacing(h0, x, aunt, t, p) && p in h0 && h0 == h[p := h0[p]]
    requires (side == 0 || side == 1) && p !in Refs(m)
    requires var k, s := Nk(x, t), Nk(x, 1 - t);
             var q := Skel(p, k.l, k.r);
             && Within(h0, h1, {x.ref, p} + Refs(k)) && Tied(h1, Pair(x.ref, t, q, s), aunt) && Tied(h1, q, x.ref)
             && Val(h1, k.l) == Val(h, k.l) && Val(h1, k.r) == Val(h, k.r) && Val(h1, s) == Val(h, s)
             && Val(h1, m) == Val(h, m) && k.ref in h0 && k.ref in h1 &&
                h1[k.ref] == h0[k.ref].(lNiece := NIL, rNiece := NIL)
             && var z := Pair(s.ref, side, Skel(m.ref, s.l, s.r), Skel(k.ref, m.l, m.r));
             && Tied(h2, z, x.ref) && Apart(z) && Refs(z) == Refs(s) + Refs(m) + {k.ref}
             && Within(h1, h2, Refs(s) + Refs(m) + {k.ref})
             && Val(h2, Skel(m.ref, s.l, s.r)) == WithNieces(Val(h1, m), Val(h1, s.l), Val(h1, s.r))
             && Val(h2, Skel(k.ref, m.l, m.r)) == Pol(h1[k.ref].data, Val(h1, m.l), Val(h1, m.r), h1[k.ref].remember)
    ensures var y := PutBeside(x, t, m, p, side);
            && Tied(h2, y, aunt) && Apart(y) && Refs(y) == Refs(x) + Refs(m) + {p} && h2.Keys == h.Keys + {p}
            && Beyond(h, h2, Refs(x) + Refs(m)) && (forall c :: c in h ==> h2[c].data == h[c].data)
            && x.ref in h && h2[x.ref].remember == h[x.ref].remember && h2[p].data == h0[p].data
            && Val(h2, Nk(y, t)) == Pol(h0[p].data, Val(h, Nk(x, t).l), Val(h, Nk(x, t).r), h0[p].remember)
            && Val(h2, Nk(y, 1 - t)).Pol? && DataOf(Val(h2, Nk(y, 1 - t))) == DataOf(Val(h, Nk(x, 1 - t)))
            && RememberOf(Val(h2, Nk(y, 1 - t))) == RememberOf(Val(h, Nk(x, 1 - t)))
            && Niece(Val(h2, Nk(y, 1 - t)), side) == WithNieces(Val(h, m), Val(h, Nk(x, 1 - t).l),
                                                                Val(h, Nk(x, 1 - t).r))
            && Niece(Val(h2, Nk(y, 1 - t)), 1 - side) == WithNieces(Val(h, Nk(x, t)), Val(h, m.l), Val(h, m.r))
  {
    hide Tied, Apart, Refs, Val;
    var k, s := Nk(x, t), Nk(x, 1 - t);
    var q := Skel(p, k.l, k.r);
    var z := Pair(s.ref, side, Skel(m.ref, s.l, s.r), Skel(k.ref, m.l, m.r));
    PutPieces(x, t, m, p);
    PairFacts(x.ref, t, q, s);
    TiedNieces(h1, Pair(x.ref, t, q, s), aunt, t);
    TiedNieces(h, x, aunt, t);
    TiedNieces(h, k, x.ref, 0);
    TiedNieces(h, s, x.ref, 0);
    TiedNieces(h, m, NIL, 0);
    var moved := Refs(s) + Refs(m) + {k.ref};
    KeepTied(h1, h2, moved, q, x.ref);
    PairTied(h2, x.ref, t, q, z, aunt);
    PairFacts(x.ref, t, q, z);
    ValueOf(h1, q);
    ValueOf(h1, s);
    ValueOf(h, s);
    ValueOf(h, k);
    ValueOf(h, m);
    ValueOf(h1, m);
    PairValue(h2, s.ref, side, Skel(m.ref, s.l, s.r), Skel(k.ref, m.l, m.r));
  }

  lemma {:induction false} PutPieces(x: Skel, t: int, m: Skel, p: Ref)
    requires x.Skel? && Apart(x) && Nk(x, t).Skel? && Nk(x, 1 - t).Skel? && m.Skel? && Refs(x) !! Refs(m)
    requires p != NIL && p !in Refs(x) && p !in Refs(m)
    ensures var k, s := Nk(x, t), Nk(x, 1 - t);
            var q := Skel(p, k.l, k.r);
            && Refs(x) == {x.ref} + Refs(k) + Refs(s) && Refs(k) == {k.ref} + Refs(k.l) + Refs(k.r) &&
               Refs(k) !! Refs(s)
            && x.ref !in Refs(k) && x.ref !in Refs(s) && x.ref != NIL && k.ref !in Refs(k.l) && k.ref !in Refs(k.r)
            && s.ref in Refs(s) && m.ref in Refs(m) && Apart(q) && Refs(q) == {p} + Refs(k.l) + Refs(k.r)
  {
    hide Apart, Refs;
    var k, s := Nk(x, t), Nk(x, 1 - t);
    PairOf(x, t);
    PairFacts(x.ref, t, k, s);
    RefsParts(k);
    ApartParts(k);
    RefsParts(s);
    RefsParts(m);
    SkelFacts(p, k.l, k.r);
  }

  /** Two roots joined below a new one. */
  method JoinRoots(h: Heap, a: Ref, b: Ref, p: Ref, data: Hash, remember: bool, ghost ka: Skel, ghost kb: Skel)
    returns (h': Heap)
    requires TwoTrees(h, ka, kb, p) && a == ka.ref && b == kb.ref
    ensures var y := Crossed(p, 0, ka, kb);
            && Tied(h', y, NIL) && Apart(y) && Refs(y) == Refs(ka) + Refs(kb) + {p} && h'.Keys == h.Keys + {p}
            && Beyond(h, h', Refs(ka) + Refs(kb)) && SameContents(h, h') && h'[p].data == data
            && Val(h', y) == Pol(data, WithNieces(Val(h, ka), Val(h, kb.l), Val(h, kb.r)),
                                 WithNieces(Val(h, kb), Val(h, ka.l), Val(h, ka.r)), remember)
  {
    hide Tied, Apart, Refs, Val, Fixable;
    ghost var x, z := Skel(a, kb.l, kb.r), Skel(b, ka.l, ka.r);
    ghost var y := Skel(p, x, z);
    JoinPieces(h, ka, kb, p);
    h' := SwapNieces(h, a, b, ka, kb);
    ghost var h1 := h';
    h' := h'[p := Cell(data, a, b, NIL, remember)];
    ghost var h2 := h';
    KeepTied(h1, h2, {p}, x, NIL);
    KeepTied(h1, h2, {p}, z, NIL);
    TiedParts(h2, x, NIL);
    TiedParts(h2, z, NIL);
    MovedFixable(h2, y, NIL);
    h' := UpdateAunt(h', p, y);
    SameValue(h2, h', Refs(y) - {p}, x);
    SameValue(h2, h', Refs(y) - {p}, z);
    ValueOf(h', y);
    ValueOf(h, ka);
    ValueOf(h, kb);
    ValueOf(h1, x);
    ValueOf(h1, z);
  }

  lemma {:induction false} JoinPieces(h: Heap, ka: Skel, kb: Skel, p: Ref)
    requires TwoTrees(h, ka, kb, p)
    ensures var x, z := Skel(ka.ref, kb.l, kb.r), Skel(kb.ref, ka.l, ka.r);
            var y := Skel(p, x, z);
            && Refs(x) !! Refs(z) && p !in Refs(x) && p !in Refs(z) && Apart(y) && Refs(y) == Refs(ka) + Refs(kb) + {p}
            && Refs(y) == {p} + Refs(x) + Refs(z) && ka.ref != kb.ref
            && Points(h, ka) && Tied(h, ka.l, ka.ref) && Tied(h, ka.r, ka.ref) && h[ka.ref].aunt == NIL
            && Points(h, kb) && Tied(h, kb.l, kb.ref) && Tied(h, kb.r, kb.ref) && h[kb.ref].aunt == NIL
            && ka.ref in h && kb.ref in h && ka.ref != p && kb.ref != p
  {
    hide Tied, Apart, Refs;
    TiedIn(h, ka, NIL);
    TiedIn(h, kb, NIL);
    SkelFacts(ka.ref, ka.l, ka.r);
    SkelFacts(kb.ref, kb.l, kb.r);
    SkelFacts(ka.ref, kb.l, kb.r);
    SkelFacts(kb.ref, ka.l, ka.r);
    SkelFacts(p, Skel(ka.ref, kb.l, kb.r), Skel(kb.ref, ka.l, ka.r));
    TiedParts(h, ka, NIL);
    TiedParts(h, kb, NIL);
  }

  /** A root comes apart into two. */
  method SplitRoot(h: Heap, root: Ref, ghost k: Skel) returns (h': Heap)
    requires k.Skel? && k.l.Skel? && k.r.Skel? && root == k.ref && Tied(h, k, NIL) && Apart(k)
    ensures var x, z := Skel(k.l.ref, k.r.l, k.r.r), Skel(k.r.ref, k.l.l, k.l.r);
            && Tied(h', x, NIL) && Tied(h', z, NIL) && Apart(x) && Apart(z) && Refs(x) !! Refs(z)
            && Refs(x) + Refs(z) == Refs(k) - {root} && h'.Keys == h.Keys && SameContents(h, h') &&
               Beyond(h, h', Refs(k))
            && Val(h', x) == WithNieces(Val(h, k.l), Val(h, k.r.l), Val(h, k.r.r))
            && Val(h', z) == WithNieces(Val(h, k.r), Val(h, k.l.l), Val(h, k.l.r))
  {
    hide Tied, Apart, Refs, Val, Within;
    ghost var x, z := Skel(k.l.ref, k.r.l, k.r.r), Skel(k.r.ref, k.l.l, k.l.r);
    TiedParts(h, k, NIL);
    var l, r := h[root].lNiece, h[root].rNiece;
    h' := SwapBelow(h, root, l, r, k, NIL);
    ghost var h1 := h';
    SplitPieces(h, h1, k);
    h' := h'[l := h'[l].(aunt := NIL)];
    h' := h'[r := h'[r].(aunt := NIL)];
    ghost var h2 := h';
    SplitTied(h1, h2, k);
    h' := DelNode(h', root);
    SplitDone(h, h1, h2, h', k);
    WithinAll(h, h', Refs(k));
  }

  lemma {:induction false} SplitPieces(h: Heap, h1: Heap, k: Skel)
    requires k.Skel? && k.l.Skel? && k.r.Skel? && Tied(h1, Crossed(k.ref, 0, k.l, k.r), NIL)
    requires Apart(Crossed(k.ref, 0, k.l, k.r)) && Refs(Crossed(k.ref, 0, k.l, k.r)) == Refs(k)
    ensures var x, z := Skel(k.l.ref, k.r.l, k.r.r), Skel(k.r.ref, k.l.l, k.l.r);
            && Tied(h1, x, k.ref) && Tied(h1, z, k.ref) && Apart(x) && Apart(z) && Refs(x) !! Refs(z) && k.ref != NIL
            && Refs(x) == {x.ref} + Refs(x.l) + Refs(x.r) && Refs(z) == {z.ref} + Refs(z.l) + Refs(z.r)
            && k.ref !in Refs(x) && k.ref !in Refs(z) && Refs(x) + Refs(z) == Refs(k) - {k.ref} && k.ref in Refs(k)
            && x.ref in h1 && z.ref in h1 && x.ref != NIL && z.ref != NIL && k.ref in h1
            && h1[k.ref].lNiece == x.ref && h1[k.ref].rNiece == z.ref && h1[k.ref].aunt == NIL
            && x.ref !in Refs(x.l) && x.ref !in Refs(x.r) && z.ref !in Refs(z.l) && z.ref !in Refs(z.r)
  {
    hide Tied, Apart, Refs;
    var x, z := Skel(k.l.ref, k.r.l, k.r.r), Skel(k.r.ref, k.l.l, k.l.r);
    var y := Crossed(k.ref, 0, k.l, k.r);
    RefsParts(y);
    ApartParts(y);
    RefsParts(x);
    ApartParts(x);
    RefsParts(z);
    ApartParts(z);
    TiedParts(h1, y, NIL);
    TiedParts(h1, x, k.ref);
    TiedParts(h1, z, k.ref);
  }

  lemma {:induction false} SplitTied(h1: Heap, h2: Heap, k: Skel)
    requires k.Skel? && k.l.Skel? && k.r.Skel? && Tied(h1, Crossed(k.ref, 0, k.l, k.r), NIL)
    requires Apart(Crossed(k.ref, 0, k.l, k.r)) && Refs(Crossed(k.ref, 0, k.l, k.r)) == Refs(k)
    requires k.l.ref in h1 && k.r.ref in h1 && k.l.ref != k.r.ref
    requires h2 == h1[k.l.ref := h1[k.l.ref].(aunt := NIL)][k.r.ref := h1[k.r.ref].(aunt := NIL)]
    ensures var x, z := Skel(k.l.ref, k.r.l, k.r.r), Skel(k.r.ref, k.l.l, k.l.r);
            && Tied(h2, x, NIL) && Tied(h2, z, NIL) && Val(h2, x) == Val(h1, x) && Val(h2, z) == Val(h1, z)
            && k.ref in h1 && k.ref in h2 && h2[k.ref] == h1[k.ref] && h2[x.ref].aunt == NIL && h2[z.ref].aunt == NIL
            && Within(h1, h2, {x.ref, z.ref})
  {
    hide Tied, Apart, Refs, Val;
    var x, z := Skel(k.l.ref, k.r.l, k.r.r), Skel(k.r.ref, k.l.l, k.l.r);
    SplitPieces(h1, h1, k);
    var s := {x.ref, z.ref};
    TiedParts(h1, x, k.ref);
    TiedParts(h1, z, k.ref);
    KeepTied(h1, h2, s, x.l, x.ref);
    KeepTied(h1, h2, s, x.r, x.ref);
    KeepTied(h1, h2, s, z.l, z.ref);
    KeepTied(h1, h2, s, z.r, z.ref);
    TiedParts(h2, x, NIL);
    TiedParts(h2, z, NIL);
    ValueOf(h1, x);
    ValueOf(h2, x);
    ValueOf(h1, z);
    ValueOf(h2, z);
  }

  lemma WithinAll(h: Heap, h': Heap, s: set<Ref>)
    requires Within(h, h', s)
    ensures h'.Keys == h.Keys && SameContents(h, h') && Beyond(h, h', s)
  {
  }

  lemma WithinChain(h: Heap, h1: Heap, h2: Heap, h3: Heap, s: set<Ref>, t: set<Ref>, u: set<Ref>)
    requires Within(h, h1, s) && Within(h1, h2, t) && Within(h2, h3, u) && t <= s && u <= s
    ensures Within(h, h3, s)
  {
  }

  lemma {:induction false} SplitDone(h: Heap, h1: Heap, h2: Heap, h3: Heap, k: Skel)
    requires k.Skel? && k.l.Skel? && k.r.Skel? && Tied(h1, Crossed(k.ref, 0, k.l, k.r), NIL)
    requires Apart(Crossed(k.ref, 0, k.l, k.r)) && Refs(Crossed(k.ref, 0, k.l, k.r)) == Refs(k) && k.ref in h1 &&
             k.ref in h2
    requires var x, z := Skel(k.l.ref, k.r.l, k.r.r), Skel(k.r.ref, k.l.l, k.l.r);
             && Tied(h2, x, NIL) && Tied(h2, z, NIL) && Within(h, h1, Refs(k)) && Within(h1, h2, {x.ref, z.ref})
             && h2[k.ref] == h1[k.ref] && CutAt(h2, h3, k.ref)
             && x.ref in h2 && z.ref in h2 && h2[x.ref].aunt == NIL && h2[z.ref].aunt == NIL
    ensures var x, z := Skel(k.l.ref, k.r.l, k.r.r), Skel(k.r.ref, k.l.l, k.l.r);
            && Tied(h3, x, NIL) && Tied(h3, z, NIL) && Val(h3, x) == Val(h2, x) && Val(h3, z) == Val(h2, z)
            && Within(h, h3, Refs(k))
  {
    hide Tied, Apart, Refs, Val, Within;
    var x, z := Skel(k.l.ref, k.r.l, k.r.r), Skel(k.r.ref, k.l.l, k.l.r);
    SplitPieces(h1, h1, k);
    assert CutSet(h2, k.ref) == {k.ref, x.ref, z.ref};
    WithinAll(h2, h3, CutSet(h2, k.ref));
    assert Beyond(h2, h3, {k.ref});
    WithinChain(h, h1, h2, h3, Refs(k), {x.ref, z.ref}, CutSet(h2, k.ref));
    KeepTied(h2, h3, {k.ref}, x, NIL);
    KeepTied(h2, h3, {k.ref}, z, NIL);
  }

  /** Cut off a node that hangs from nowhere; only cells below it change. */
  method CutBelow(h: Heap, x: Ref, ghost h0: Heap, ghost k: Skel, ghost aunt: Ref) returns (h': Heap)
    requires k.Skel? && x == k.ref && Tied(h0, k, aunt) && Apart(k) && h.Keys == h0.Keys
    requires x in h && x in h0 && h[x] == h0[x].(aunt := NIL)
    ensures Within(h, h', Refs(k)) && h'.Keys == h.Keys
  {
    hide Tied, Apart, Refs, Within;
    NiecesIn(h0, k, aunt);
    RefsParts(k);
    h' := DelNode(h, x);
    WithinMore(h, h', CutSet(h, x), Refs(k));
  }

  /** A root and what hangs from it is given up. */
  method DropRoot(h: Heap, root: Ref, ghost k: Skel) returns (h': Heap)
    requires k.Skel? && root == k.ref && Tied(h, k, NIL) && Apart(k)
    ensures var y := Skel(root, NoSkel, NoSkel);
            && Tied(h', y, NIL) && Apart(y) && Refs(y) == {root} && h'.Keys == h.Keys && Beyond(h, h', Refs(k)) &&
               root in h
            && Val(h', y) == Pol(Empty, NoNode, NoNode, h[root].remember)
            && (forall c :: c in h && c != root ==> h'[c].data == h[c].data)
  {
    hide Tied, Apart, Refs, Val, Within;
    DropPieces(h, k);
    var l, r := h[root].lNiece, h[root].rNiece;
    h' := h;
    if l != NIL {
      h' := h'[l := h'[l].(aunt := NIL)];
    }
    if r != NIL {
      h' := h'[r := h'[r].(aunt := NIL)];
    }
    ghost var h1 := h';
    if l != NIL {
      h' := CutBelow(h', l, h, k.l, root);
      CutApart(h1, h', Refs(k.l), r);
    }
    ghost var h2 := h';
    if r != NIL {
      h' := CutBelow(h', r, h, k.r, root);
    }
    ghost var h3 := h';
    h' := h'[root := h'[root].(lNiece := NIL, rNiece := NIL, aunt := NIL, data := Empty)];
    RootDropped(h, h1, h2, h3, h', k);
  }

  lemma CutApart(h: Heap, h': Heap, s: set<Ref>, x: Ref)
    requires Within(h, h', s)
    ensures x in h && x !in s ==> x in h' && h'[x] == h[x]
  {
  }

  lemma {:induction false} DropPieces(h: Heap, k: Skel)
    requires k.Skel? && Tied(h, k, NIL) && Apart(k)
    ensures k.ref in h && k.ref != NIL && Refs(k) == {k.ref} + Refs(k.l) + Refs(k.r) && Refs(k.l) !! Refs(k.r)
    ensures k.ref !in Refs(k.l) && k.ref !in Refs(k.r) && Apart(k.l) && Apart(k.r)
    ensures Tied(h, k.l, k.ref) && Tied(h, k.r, k.ref)
    ensures k.l.Skel? <==> h[k.ref].lNiece != NIL
    ensures k.r.Skel? <==> h[k.ref].rNiece != NIL
    ensures k.l.Skel? ==> k.l.ref == h[k.ref].lNiece && k.l.ref in h && k.l.ref in Refs(k.l)
    ensures k.r.Skel? ==> k.r.ref == h[k.ref].rNiece && k.r.ref in h && k.r.ref in Refs(k.r)
  {
    hide Tied, Apart, Refs;
    RefsParts(k);
    ApartParts(k);
    TiedParts(h, k, NIL);
    NotNil(k.l);
    NotNil(k.r);
    if k.l.Skel? { RefsParts(k.l); TiedParts(h, k.l, k.ref); }
    if k.r.Skel? { RefsParts(k.r); TiedParts(h, k.r, k.ref); }
  }

  lemma {:induction false} RootDropped(h: Heap, h1: Heap, h2: Heap, h3: Heap, h4: Heap, k: Skel)
    requires k.Skel? && Tied(h, k, NIL) && Apart(k) && k.ref in h
    requires OnlyAunts(h, h1, Refs(k.l) + Refs(k.r))
    requires Within(h1, h2, Refs(k.l)) || h2 == h1
    requires Within(h2, h3, Refs(k.r)) || h3 == h2
    requires k.ref in h3 && h4 == h3[k.ref := h3[k.ref].(lNiece := NIL, rNiece := NIL, aunt := NIL, data := Empty)]
    ensures var y := Skel(k.ref, NoSkel, NoSkel);
            && Tied(h4, y, NIL) && Apart(y) && Refs(y) == {k.ref} && h4.Keys == h.Keys && Beyond(h, h4, Refs(k))
            && Val(h4, y) == Pol(Empty, NoNode, NoNode, h[k.ref].remember)
            && (forall c :: c in h && c != k.ref ==> h4[c].data == h[c].data)
  {
    hide Tied, Apart, Refs, Val;
    var y := Skel(k.ref, NoSkel, NoSkel);
    DropPieces(h, k);
    TiedNothing();
    NoApart();
    SkelFacts(k.ref, NoSkel, NoSkel);
    TiedParts(h4, y, NIL);
    ValueOf(h4, y);
    NoValue(h4);
  }

  lemma NoValue(h: Heap)
    ensures Val(h, NoSkel) == NoNode
  {
  }
}
