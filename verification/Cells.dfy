/** The nodes of the pollard in memory. */
module Cells {
  // A node is a cell with pointers to its nieces and to its aunt.  What hangs from a node is given by the cells it is
  // made of (`Skel`); it is tied when all pointers down and up are right.  Its value is a node as in `Nieces`.

  import opened Hashes
  import opened Nieces

  type Ref = nat

  const NIL: Ref := 0

  datatype Cell = Cell(data: Hash, lNiece: Ref, rNiece: Ref, aunt: Ref, remember: bool)

  type Heap = map<Ref, Cell>

  datatype Skel = NoSkel | Skel(ref: Ref, l: Skel, r: Skel)

  function RefOf(k: Skel): Ref {
    if k.NoSkel? then NIL else k.ref
  }

  /** The cells of a node and of what hangs from it. */
  function Refs(k: Skel): set<Ref> {
    if k.NoSkel? then {} else {k.ref} + Refs(k.l) + Refs(k.r)
  }

  /** No cell is used twice. */
  ghost predicate Apart(k: Skel) {
    k.Skel? ==>
      && k.ref != NIL && k.ref !in Refs(k.l) && k.ref !in Refs(k.r) && Refs(k.l) !! Refs(k.r)
      && Apart(k.l) && Apart(k.r)
  }

  /** The pointers of a cell lead to its nieces. */
  ghost predicate Points(h: Heap, k: Skel) {
    k.Skel? ==> k.ref in h && h[k.ref].lNiece == RefOf(k.l) && h[k.ref].rNiece == RefOf(k.r)
  }

  /** All pointers are right, and that to the aunt is as given. */
  ghost predicate Tied(h: Heap, k: Skel, aunt: Ref) {
    k.Skel? ==> Points(h, k) && h[k.ref].aunt == aunt && Tied(h, k.l, k.ref) && Tied(h, k.r, k.ref)
  }

  /** The node that the cells hold. */
  ghost function Val(h: Heap, k: Skel): PolNode {
    if k.NoSkel? || k.ref !in h then NoNode
    else Pol(h[k.ref].data, Val(h, k.l), Val(h, k.r), h[k.ref].remember)
  }

  lemma RefsParts(k: Skel)
    requires k.Skel?
    ensures Refs(k) == {k.ref} + Refs(k.l) + Refs(k.r)
  {
  }

  lemma ApartParts(k: Skel)
    requires k.Skel?
    ensures Apart(k) <==> && k.ref != NIL && k.ref !in Refs(k.l) && k.ref !in Refs(k.r) && Refs(k.l) !! Refs(k.r)
                          && Apart(k.l) && Apart(k.r)
  {
    hide Refs;
  }

  lemma TiedParts(h: Heap, k: Skel, aunt: Ref)
    requires k.Skel?
    ensures Tied(h, k, aunt) <==>
            Points(h, k) && h[k.ref].aunt == aunt && Tied(h, k.l, k.ref) && Tied(h, k.r, k.ref)
  {
  }

  /** Two heaps agree on some cells. */
  ghost predicate Agree(h: Heap, h': Heap, s: set<Ref>) {
    forall x :: x in s ==> (x in h <==> x in h') && (x in h ==> h[x] == h'[x])
  }

  lemma {:induction false} SameBelow(h: Heap, h': Heap, k: Skel, aunt: Ref)
    requires Agree(h, h', Refs(k))
    ensures Tied(h, k, aunt) <==> Tied(h', k, aunt)
    ensures Val(h, k) == Val(h', k)
    decreases k
  {
    if k.Skel? {
      assert k.ref in Refs(k);
      SameBelow(h, h', k.l, k.ref);
      SameBelow(h, h', k.r, k.ref);
    }
  }

  /** Nothing but pointers to aunts differs, and these only on some cells. */
  ghost predicate OnlyAunts(h: Heap, h': Heap, s: set<Ref>) {
    && h.Keys == h'.Keys
    && forall x :: x in h ==> if x in s then h'[x] == h[x].(aunt := h'[x].aunt) else h'[x] == h[x]
  }

  lemma {:induction false} SameValue(h: Heap, h': Heap, s: set<Ref>, k: Skel)
    requires OnlyAunts(h, h', s)
    ensures Val(h, k) == Val(h', k)
    decreases k
  {
    if k.Skel? {
      SameValue(h, h', s, k.l);
      SameValue(h, h', s, k.r);
    }
  }

  /** The walk down from a node can make all pointers to aunts right: where it meets one that is right and stops, all
      others that it does not look at are right as well. */
  ghost predicate Fixable(h: Heap, k: Skel) {
    k.Skel? ==>
      && Points(h, k) && (k.l.Skel? ==> k.l.ref in h) && (k.r.Skel? ==> k.r.ref in h)
      && if k.l.Skel? && h[k.l.ref].aunt == k.ref then Tied(h, k.l, k.ref) && Tied(h, k.r, k.ref)
         else
           && Fixable(h, k.l)
           && if k.r.Skel? && h[k.r.ref].aunt == k.ref then Tied(h, k.r, k.ref) else Fixable(h, k.r)
  }

  lemma {:induction false} FixableSame(h: Heap, h': Heap, k: Skel)
    requires Agree(h, h', Refs(k))
    ensures Fixable(h, k) <==> Fixable(h', k)
    decreases k
  {
    if k.Skel? {
      assert k.ref in Refs(k) && (k.l.Skel? ==> k.l.ref in Refs(k)) && (k.r.Skel? ==> k.r.ref in Refs(k));
      FixableSame(h, h', k.l);
      FixableSame(h, h', k.r);
      SameBelow(h, h', k.l, k.ref);
      SameBelow(h, h', k.r, k.ref);
    }
  }

  /** The pointer to its own aunt does not matter for what is below. */
  lemma {:induction false} TopAunt(h: Heap, h': Heap, k: Skel, aunt: Ref)
    requires k.Skel? && Apart(k) && k.ref in h && k.ref in h' && Agree(h, h', Refs(k) - {k.ref})
    requires h'[k.ref] == h[k.ref].(aunt := h'[k.ref].aunt)
    ensures Fixable(h, k) <==> Fixable(h', k)
    ensures Tied(h, k, h[k.ref].aunt) <==> Tied(h', k, h'[k.ref].aunt)
    ensures Val(h, k) == Val(h', k)
  {
    FixableSame(h, h', k.l);
    FixableSame(h, h', k.r);
    SameBelow(h, h', k.l, k.ref);
    SameBelow(h, h', k.r, k.ref);
    assert k.l.Skel? ==> k.l.ref in Refs(k) - {k.ref};
    assert k.r.Skel? ==> k.r.ref in Refs(k) - {k.ref};
  }

  lemma {:induction false} TiedFixable(h: Heap, k: Skel, aunt: Ref)
    requires Tied(h, k, aunt)
    ensures Fixable(h, k)
    decreases k
  {
    if k.Skel? {
      TiedFixable(h, k.l, k.ref);
      TiedFixable(h, k.r, k.ref);
    }
  }

  /** The pointers to nieces are as they should be. */
  ghost predicate Hangs(h: Heap, k: Skel) {
    k.Skel? ==> Points(h, k) && Hangs(h, k.l) && Hangs(h, k.r)
  }

  lemma {:induction false} TiedHangs(h: Heap, k: Skel, aunt: Ref)
    requires Tied(h, k, aunt)
    ensures Hangs(h, k)
    decreases k
  {
    if k.Skel? {
      TiedHangs(h, k.l, k.ref);
      TiedHangs(h, k.r, k.ref);
    }
  }

  lemma {:induction false} FixableHangs(h: Heap, k: Skel)
    requires Fixable(h, k)
    ensures Hangs(h, k)
    decreases k
  {
    hide Tied;
    if k.Skel? {
      if k.l.Skel? && h[k.l.ref].aunt == k.ref {
        TiedHangs(h, k.l, k.ref);
        TiedHangs(h, k.r, k.ref);
      } else {
        FixableHangs(h, k.l);
        if k.r.Skel? && h[k.r.ref].aunt == k.ref { TiedHangs(h, k.r, k.ref); } else { FixableHangs(h, k.r); }
      }
    }
  }

  lemma {:induction false} StillHangs(h: Heap, h': Heap, s: set<Ref>, k: Skel)
    requires Hangs(h, k) && OnlyAunts(h, h', s)
    ensures Hangs(h', k)
    decreases k
  {
    if k.Skel? {
      StillHangs(h, h', s, k.l);
      StillHangs(h, h', s, k.r);
    }
  }

  /** Work down from a node, setting the pointers to aunts, until one is right.  Afterwards all are right if and only if
      those that are not looked at were. */
  method UpdateAunt(h: Heap, n: Ref, ghost k: Skel) returns (h': Heap)
    requires k.Skel? && n == k.ref && Apart(k) && Hangs(h, k)
    ensures OnlyAunts(h, h', Refs(k) - {n}) && n in h && (Tied(h', k, h[n].aunt) <==> Fixable(h, k))
    decreases k
  {
    hide Tied, Val, Fixable, Apart, Refs, OnlyAunts, Hangs;
    NiecesOf(h, k);
    h' := h;
    var lNiece := h[n].lNiece;
    if lNiece != NIL {
      if h'[lNiece].aunt == n {
        AllRight(h, k);
        return;
      } else {
        h' := h'[lNiece := h'[lNiece].(aunt := n)];
        ghost var h1 := h';
        AuntSet(h, h1, k.l, n);
        h' := UpdateAunt(h', lNiece, k.l);
        AuntsSet(h, h1, h', k.l);
      }
    }
    ghost var h2 := h';
    LeftDone(h, h2, k);
    var rNiece := h'[n].rNiece;
    if rNiece != NIL {
      if h'[rNiece].aunt == n {
        return;
      } else {
        h' := h'[rNiece := h'[rNiece].(aunt := n)];
        ghost var h3 := h';
        AuntSet(h2, h3, k.r, n);
        h' := UpdateAunt(h', rNiece, k.r);
        AuntsSet(h2, h3, h', k.r);
        RightDone(h, h2, h', k);
      }
    }
  }

  lemma {:induction false} NiecesOf(h: Heap, k: Skel)
    requires k.Skel? && Apart(k) && Hangs(h, k)
    ensures Points(h, k) && k.ref in h && Apart(k.l) && Apart(k.r) && Hangs(h, k.l) && Hangs(h, k.r)
    ensures k.l.Skel? <==> h[k.ref].lNiece != NIL
    ensures k.r.Skel? <==> h[k.ref].rNiece != NIL
    ensures k.l.Skel? ==> k.l.ref in h
    ensures k.r.Skel? ==> k.r.ref in h
    ensures k.l.NoSkel? ==> Tied(h, k.l, k.ref) && Fixable(h, k.l) && OnlyAunts(h, h, Refs(k.l))
    ensures k.r.NoSkel? ==> Fixable(h, k.r)
  {
    hide Refs;
    NotNil(k.l);
    NotNil(k.r);
  }

  lemma {:induction false} AllRight(h: Heap, k: Skel)
    requires k.Skel? && Hangs(h, k) && k.l.Skel? && k.l.ref in h && h[k.l.ref].aunt == k.ref
    ensures k.ref in h && (Tied(h, k, h[k.ref].aunt) <==> Fixable(h, k)) && OnlyAunts(h, h, Refs(k) - {k.ref})
  {
    hide Refs;
  }

  /** One pointer to an aunt is set. */
  lemma {:induction false} AuntSet(h: Heap, h': Heap, k: Skel, n: Ref)
    requires k.Skel? && Apart(k) && k.ref in h && h' == h[k.ref := h[k.ref].(aunt := n)] && Hangs(h, k)
    ensures Hangs(h', k) && (Fixable(h', k) <==> Fixable(h, k)) && OnlyAunts(h, h', Refs(k)) && h'[k.ref].aunt == n
  {
    hide Fixable, Apart, Hangs;
    RefsParts(k);
    TopAunt(h, h', k, n);
    StillHangs(h, h', Refs(k), k);
  }

  lemma AuntsSet(h: Heap, h1: Heap, h2: Heap, k: Skel)
    requires k.Skel? && OnlyAunts(h, h1, Refs(k)) && OnlyAunts(h1, h2, Refs(k) - {k.ref})
    ensures OnlyAunts(h, h2, Refs(k))
  {
    hide Refs;
  }

  /** After the left niece. */
  lemma {:induction false} LeftDone(h: Heap, h2: Heap, k: Skel)
    requires k.Skel? && Apart(k) && Hangs(h, k) && OnlyAunts(h, h2, Refs(k.l)) && k.ref in h
    requires Tied(h2, k.l, k.ref) <==> Fixable(h, k.l)
    requires k.l.Skel? && k.l.ref in h ==> h[k.l.ref].aunt != k.ref
    ensures k.ref in h2 && h2[k.ref] == h[k.ref] && Points(h2, k) && (k.r.Skel? ==> k.r.ref in h2 && k.r.ref in h)
    ensures k.r.Skel? ==> Hangs(h2, k.r) && h2[k.r.ref] == h[k.r.ref]
    ensures Fixable(h2, k.r) <==> Fixable(h, k.r)
    ensures k.r.NoSkel? || h2[k.r.ref].aunt == k.ref ==>
              (Tied(h2, k, h[k.ref].aunt) <==> Fixable(h, k)) && OnlyAunts(h, h2, Refs(k) - {k.ref})
  {
    hide Tied, Fixable, Apart, Refs, Hangs;
    RefsParts(k);
    ApartParts(k);
    NiecesOf(h, k);
    FixableIff(h, k);
    TiedNothing();
    StillHangs(h, h2, Refs(k.l), k.r);
    if k.r.Skel? { RefsParts(k.r); }
    FixableSame(h, h2, k.r);
    SameBelow(h, h2, k.r, k.ref);
    TiedParts(h2, k, h[k.ref].aunt);
  }

  /** After both. */
  lemma {:induction false} RightDone(h: Heap, h2: Heap, h3: Heap, k: Skel)
    requires k.Skel? && Apart(k) && Hangs(h, k) && k.ref in h && k.ref in h2 && h2[k.ref] == h[k.ref] && Points(h2, k)
    requires OnlyAunts(h, h2, Refs(k.l)) && OnlyAunts(h2, h3, Refs(k.r))
    requires k.l.Skel? && k.l.ref in h ==> h[k.l.ref].aunt != k.ref
    requires k.r.Skel? && k.r.ref in h && h[k.r.ref].aunt != k.ref
    requires (Tied(h2, k.l, k.ref) <==> Fixable(h, k.l)) && (Tied(h3, k.r, k.ref) <==> Fixable(h, k.r))
    ensures (Tied(h3, k, h[k.ref].aunt) <==> Fixable(h, k)) && OnlyAunts(h, h3, Refs(k) - {k.ref})
  {
    hide Tied, Fixable, Apart, Refs, Hangs;
    RefsParts(k);
    ApartParts(k);
    NiecesOf(h, k);
    FixableIff(h, k);
    SameBelow(h2, h3, k.l, k.ref);
    TiedParts(h3, k, h[k.ref].aunt);
  }

  lemma FixableIff(h: Heap, k: Skel)
    requires k.Skel? && Points(h, k) && (k.l.Skel? ==> k.l.ref in h) && (k.r.Skel? ==> k.r.ref in h)
    ensures Fixable(h, k) <==>
            if k.l.Skel? && h[k.l.ref].aunt == k.ref then Tied(h, k.l, k.ref) && Tied(h, k.r, k.ref)
            else
              && Fixable(h, k.l)
              && if k.r.Skel? && h[k.r.ref].aunt == k.ref then Tied(h, k.r, k.ref) else Fixable(h, k.r)
  {
    hide Tied;
  }

  lemma NotNil(k: Skel)
    requires Apart(k)
    ensures k.Skel? <==> RefOf(k) != NIL
  {
  }

  lemma TiedNothing()
    ensures forall h, aunt :: Tied(h, NoSkel, aunt)
    ensures Refs(NoSkel) == {}
  {
  }

  /** Hashes and flags stay where they are. */
  ghost predicate SameContents(h: Heap, h': Heap) {
    h.Keys <= h'.Keys && forall c :: c in h ==> h'[c].data == h[c].data && h'[c].remember == h[c].remember
  }

  /** Cells outside a set stay as they are. */
  ghost predicate Beyond(h: Heap, h': Heap, s: set<Ref>) {
    h.Keys <= h'.Keys && forall x :: x in h && x !in s ==> h'[x] == h[x]
  }

  lemma {:induction false} TiedIn(h: Heap, k: Skel, aunt: Ref)
    requires Tied(h, k, aunt)
    ensures Refs(k) <= h.Keys
    decreases k
  {
    if k.Skel? {
      TiedIn(h, k.l, k.ref);
      TiedIn(h, k.r, k.ref);
    }
  }

  /** What has no cell in the set stays tied, with its value. */
  lemma {:induction false} KeepTied(h: Heap, h': Heap, s: set<Ref>, k: Skel, aunt: Ref)
    requires Tied(h, k, aunt) && Beyond(h, h', s) && Refs(k) !! s
    ensures Tied(h', k, aunt) && Val(h', k) == Val(h, k)
  {
    hide Tied, Val;
    TiedIn(h, k, aunt);
    SameBelow(h, h', k, aunt);
  }

  /** Where all pointers are right nothing changes. */
  lemma {:induction false} NoChange(h: Heap, h': Heap, k: Skel, aunt: Ref)
    requires Tied(h, k, aunt) && Tied(h', k, aunt)
    requires forall x :: x in Refs(k) && x in h && x in h' ==> h'[x] == h[x].(aunt := h'[x].aunt)
    ensures Agree(h, h', Refs(k))
    decreases k
  {
    if k.Skel? {
      NoChange(h, h', k.l, k.ref);
      NoChange(h, h', k.r, k.ref);
      TiedIn(h, k, aunt);
      TiedIn(h', k, aunt);
    }
  }

  /** Where all pointers are right the walk down changes nothing. */
  method UpdateRight(h: Heap, n: Ref, ghost k: Skel) returns (h': Heap)
    requires k.Skel? && n == k.ref && Apart(k) && n in h && Tied(h, k, h[n].aunt)
    ensures h' == h
  {
    hide Tied, Fixable, Apart, Hangs;
    TiedFixable(h, k, h[n].aunt);
    TiedHangs(h, k, h[n].aunt);
    h' := UpdateAunt(h, n, k);
    NoChange(h, h', k, h[n].aunt);
    assert h' == h;
  }

  /** A pair of nieces. */
  function Pair(ref: Ref, turn: int, n: Skel, s: Skel): Skel {
    if turn % 2 == 0 then Skel(ref, n, s) else Skel(ref, s, n)
  }

  /** The nieces of `b` become those of `a`. */
  method TransferNiece(h: Heap, a: Ref, b: Ref, ghost kb: Skel) returns (h': Heap)
    requires kb.Skel? && kb.ref == b && a in h && a != NIL && Apart(kb) && a !in Refs(kb)
    requires Points(h, kb) && Tied(h, kb.l, b) && Tied(h, kb.r, b)
    ensures h'.Keys == h.Keys && Beyond(h, h', {a, b} + Refs(kb.l) + Refs(kb.r))
    ensures Tied(h', Skel(a, kb.l, kb.r), h[a].aunt)
    ensures h'[a] == h[a].(lNiece := RefOf(kb.l), rNiece := RefOf(kb.r))
    ensures h'[b] == h[b].(lNiece := NIL, rNiece := NIL)
    ensures Val(h', kb.l) == Val(h, kb.l) && Val(h', kb.r) == Val(h, kb.r) && SameContents(h, h')
  {
    ghost var k := Skel(a, kb.l, kb.r);
    h' := h[a := h[a].(lNiece := h[b].lNiece, rNiece := h[b].rNiece)];
    h' := h'[b := h'[b].(lNiece := NIL, rNiece := NIL)];
    ghost var h1 := h';
    KeepTied(h, h1, {a, b}, kb.l, b);
    KeepTied(h, h1, {a, b}, kb.r, b);
    MovedFixable(h1, k, b);
    h' := UpdateAunt(h', a, k);
    SameValue(h1, h', Refs(k) - {a}, kb.l);
    SameValue(h1, h', Refs(k) - {a}, kb.r);
  }

  /** Nieces that come from elsewhere. */
  lemma {:induction false} MovedFixable(h: Heap, k: Skel, b: Ref)
    requires k.Skel? && Points(h, k) && Apart(k) && b != k.ref && Tied(h, k.l, b) && Tied(h, k.r, b)
    ensures Fixable(h, k) && Hangs(h, k)
  {
    hide Apart;
    TiedFixable(h, k.l, b);
    TiedFixable(h, k.r, b);
    TiedHangs(h, k.l, b);
    TiedHangs(h, k.r, b);
  }

  /** The nieces of `a` become those of `b`, and those of `b` become those of `a`. */
  method SwapNieces(h: Heap, a: Ref, b: Ref, ghost ka: Skel, ghost kb: Skel) returns (h': Heap)
    requires ka.Skel? && kb.Skel? && ka.ref == a && kb.ref == b && Apart(ka) && Apart(kb) && Refs(ka) !! Refs(kb)
    requires Points(h, ka) && Tied(h, ka.l, a) && Tied(h, ka.r, a)
    requires Points(h, kb) && Tied(h, kb.l, b) && Tied(h, kb.r, b)
    ensures h'.Keys == h.Keys && Beyond(h, h', Refs(ka) + Refs(kb))
    ensures Tied(h', Skel(a, kb.l, kb.r), h[a].aunt) && Tied(h', Skel(b, ka.l, ka.r), h[b].aunt)
    ensures h'[a] == h[a].(lNiece := RefOf(kb.l), rNiece := RefOf(kb.r))
    ensures h'[b] == h[b].(lNiece := RefOf(ka.l), rNiece := RefOf(ka.r))
    ensures Val(h', ka.l) == Val(h, ka.l) && Val(h', ka.r) == Val(h, ka.r)
    ensures Val(h', kb.l) == Val(h, kb.l) && Val(h', kb.r) == Val(h, kb.r) && SameContents(h, h')
  {
    hide Tied, Val, Fixable, Apart, Refs, Hangs;
    ghost var k, l := Skel(a, kb.l, kb.r), Skel(b, ka.l, ka.r);
    RefsParts(ka);
    RefsParts(kb);
    RefsParts(k);
    RefsParts(l);
    ApartParts(ka);
    ApartParts(kb);
    ApartParts(k);
    ApartParts(l);
    h' := h[a := h[a].(lNiece := h[b].lNiece, rNiece := h[b].rNiece)]
           [b := h[b].(lNiece := h[a].lNiece, rNiece := h[a].rNiece)];
    ghost var h1 := h';
    KeepTied(h, h1, {a, b}, ka.l, a);
    KeepTied(h, h1, {a, b}, ka.r, a);
    KeepTied(h, h1, {a, b}, kb.l, b);
    KeepTied(h, h1, {a, b}, kb.r, b);
    MovedFixable(h1, k, b);
    h' := UpdateAunt(h', a, k);
    ghost var h2 := h';
    KeepTied(h1, h2, Refs(k) - {a}, ka.l, a);
    KeepTied(h1, h2, Refs(k) - {a}, ka.r, a);
    MovedFixable(h2, l, a);
    h' := UpdateAunt(h', b, l);
    KeepTied(h2, h', Refs(l) - {b}, k, h[a].aunt);
    SwappedValues(h1, h2, h', k, l);
  }

  lemma {:induction false} SwappedValues(h1: Heap, h2: Heap, h3: Heap, k: Skel, l: Skel)
    requires k.Skel? && l.Skel? && OnlyAunts(h1, h2, Refs(k) - {k.ref}) && OnlyAunts(h2, h3, Refs(l) - {l.ref})
    ensures Val(h3, k.l) == Val(h1, k.l) && Val(h3, k.r) == Val(h1, k.r)
    ensures Val(h3, l.l) == Val(h1, l.l) && Val(h3, l.r) == Val(h1, l.r)
  {
    hide Val;
    SameValue(h1, h2, Refs(k) - {k.ref}, k.l);
    SameValue(h1, h2, Refs(k) - {k.ref}, k.r);
    SameValue(h1, h2, Refs(k) - {k.ref}, l.l);
    SameValue(h1, h2, Refs(k) - {k.ref}, l.r);
    SameValue(h2, h3, Refs(l) - {l.ref}, k.l);
    SameValue(h2, h3, Refs(l) - {l.ref}, k.r);
    SameValue(h2, h3, Refs(l) - {l.ref}, l.l);
    SameValue(h2, h3, Refs(l) - {l.ref}, l.r);
  }
}
