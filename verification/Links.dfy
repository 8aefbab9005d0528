/** The roots of the pollard and the map of its leaves, by pointers. */
module Links {
  import opened Hashes
  import opened Nieces
  import opened NieceNavigation
  import opened TreeIndex
  import opened Cells
  import opened CellPaths
  import opened CellHashes

  /** Each root is tied and hangs from nowhere, and the roots have no cells in common. */
  ghost predicate Linked(h: Heap, roots: seq<Ref>, ks: seq<Skel>) {
    && |roots| == |ks|
    && (forall i :: 0 <= i < |ks| ==> ks[i].Skel? && roots[i] == ks[i].ref && Tied(h, ks[i], NIL) && Apart(ks[i]))
    && (forall i, j :: 0 <= i < j < |ks| ==> Refs(ks[i]) !! Refs(ks[j]))
  }

  /** The nodes of the roots. */
  ghost function ValsOf(h: Heap, ks: seq<Skel>): (r: seq<PolNode>)
    ensures |r| == |ks| && forall i :: 0 <= i < |ks| ==> r[i] == Val(h, ks[i])
  {
    seq(|ks|, i requires 0 <= i < |ks| => Val(h, ks[i]))
  }

  /** The map leads from a hash to the node that has it. */
  ghost predicate MapRight(h: Heap, ks: seq<Skel>, nodeMap: map<Hash, Ref>) {
    forall i, x :: 0 <= i < |ks| && x in Refs(ks[i]) && x in h && h[x].data in nodeMap ==> nodeMap[h[x].data] == x
  }

  lemma LinkedAt(h: Heap, roots: seq<Ref>, ks: seq<Skel>, i: nat)
    requires Linked(h, roots, ks) && i < |ks|
    ensures |roots| == |ks| && ks[i].Skel? && roots[i] == ks[i].ref && Tied(h, ks[i], NIL) && Apart(ks[i])
    ensures forall j :: 0 <= j < |ks| && j != i ==> Refs(ks[i]) !! Refs(ks[j])
  {
    hide Tied, Apart, Refs;
  }

  /** One root changes, in its own cells and new ones. */
  lemma {:induction false} ReplaceRoot(h: Heap, h': Heap, roots: seq<Ref>, ks: seq<Skel>, i: nat, y: Skel,
                                       more: set<Ref>)
    requires Linked(h, roots, ks) && i < |ks| && Beyond(h, h', Refs(ks[i]) + more) && Refs(y) <= Refs(ks[i]) + more
    requires y.Skel? && y.ref == ks[i].ref && Tied(h', y, NIL) && Apart(y)
    requires forall j :: 0 <= j < |ks| && j != i ==> more !! Refs(ks[j])
    ensures Linked(h', roots, ks[i := y]) && ValsOf(h', ks[i := y]) == ValsOf(h, ks)[i := Val(h', y)]
  {
    hide Tied, Apart, Refs, Val;
    LinkedAt(h, roots, ks, i);
    forall j | 0 <= j < |ks| && j != i
      ensures Tied(h', ks[j], NIL) && Val(h', ks[j]) == Val(h, ks[j])
    {
      LinkedAt(h, roots, ks, j);
      KeepTied(h, h', Refs(ks[i]) + more, ks[j], NIL);
    }
  }

  /** Nieces come in pairs. */
  lemma {:induction false} WideFrom(h: Heap, k: Skel, turns: seq<int>)
    requires Refs(k) <= h.Keys && Whole(Val(h, k)) && |turns| > 0 && SubAt(k, turns).Skel?
    ensures Wide(k, turns[..|turns| - 1])
    decreases |turns|
  {
    if k.NoSkel? { SubNothing(turns); }
    var n := Nk(k, turns[0]);
    if n.NoSkel? { SubNothing(turns[1..]); }
    ValueParts(h, k);
    NothingThere(h, k);
    if |turns| > 1 {
      WideFrom(h, n, turns[1..]);
      assert turns[..|turns| - 1][1..] == turns[1..][..|turns| - 2];
    }
  }

  lemma NothingThere(h: Heap, k: Skel)
    ensures k.Skel? && k.l.NoSkel? ==> Val(h, k.l).NoNode?
    ensures k.Skel? && k.r.NoSkel? ==> Val(h, k.r).NoNode?
  {
  }

  /** What the way down along some digits leads to. */
  ghost predicate WalkedTo(k: Skel, bits: int, len: int, n: Ref, sibling: Ref, parent: Ref) {
    && n == RefOf(SubAt(k, TurnsOf(bits, 0, len)))
    && (n == NIL ==> sibling == NIL && parent == NIL)
    && (n != NIL && len <= 0 ==> sibling == n && parent == NIL)
    && (n != NIL && len > 0 ==> sibling == RefOf(SubAt(k, TurnsOf(bits, 1, len) + [1 - Digit(bits, 0)])))
    && (n != NIL && len == 1 ==> parent == RefOf(k))
    && (n != NIL && len > 1 ==> parent == RefOf(SubAt(k, TurnsOf(bits, 2, len) + [1 - Digit(bits, 1)])))
  }

  lemma {:induction false} LostBelow(k: Skel, bits: int, len: nat, i: nat)
    requires i <= len && SubAt(k, TurnsOf(bits, i, len)).NoSkel?
    ensures SubAt(k, TurnsOf(bits, 0, len)).NoSkel?
    decreases i
  {
    hide SubAt;
    if i > 0 {
      SubMore(k, TurnsOf(bits, i, len), Digit(bits, i - 1));
      LostBelow(k, bits, len, i - 1);
    }
  }

  /** Go down from a root along some digits. */
  method WalkDown(h: Heap, root: Ref, bits: int, len: int, ghost k: Skel) returns (n: Ref, sibling: Ref, parent: Ref)
    requires k.Skel? && root == k.ref && Tied(h, k, NIL) && Apart(k)
    ensures WalkedTo(k, bits, len, n, sibling, parent)
  {
    hide SubAt, Digit, Tied, Apart;
    n, sibling, parent := root, root, NIL;
    SubNone(k);
    ApartParts(k);
    var i := len;
    while i > 0
      invariant i <= len && (len >= 0 ==> i >= 0) && (len < 0 ==> i == len) && n != NIL
      invariant i >= 0 ==> n == RefOf(SubAt(k, TurnsOf(bits, i, len)))
      invariant i == len ==> n == root && sibling == root && parent == NIL
      invariant 0 <= i < len ==> sibling == RefOf(SubAt(k, TurnsOf(bits, i + 1, len) + [1 - Digit(bits, i)]))
      invariant 0 <= i == len - 1 ==> parent == root
      invariant 0 <= i < len - 1 ==> parent == RefOf(SubAt(k, TurnsOf(bits, i + 2, len) + [1 - Digit(bits, i + 1)]))
    {
      ghost var turns := TurnsOf(bits, i, len);
      i := i - 1;
      StepDown(h, k, turns, Digit(bits, i));
      parent := sibling;
      if Digit(bits, i) == 0 {
        n, sibling := h[n].lNiece, h[n].rNiece;
      } else {
        n, sibling := h[n].rNiece, h[n].lNiece;
      }
      if n == NIL {
        LostBelow(k, bits, len, i);
        return NIL, NIL, NIL;
      }
    }
  }

  lemma {:induction false} StepDown(h: Heap, k: Skel, turns: seq<int>, turn: int)
    requires Tied(h, k, NIL) && Apart(k) && RefOf(SubAt(k, turns)) != NIL && 0 <= turn < 2
    ensures var a := SubAt(k, turns);
            && a.Skel? && a.ref in h && SubAt(k, turns + [turn]) == Nk(a, turn) &&
               SubAt(k, turns + [1 - turn]) == Nk(a, 1 - turn)
            && (if turn == 0 then h[a.ref].lNiece else h[a.ref].rNiece) == RefOf(Nk(a, turn))
            && (if turn == 0 then h[a.ref].rNiece else h[a.ref].lNiece) == RefOf(Nk(a, 1 - turn))
            && (RefOf(Nk(a, turn)) == NIL <==> Nk(a, turn).NoSkel?)
  {
    hide SubAt, Tied, Apart;
    SubMore(k, turns, turn);
    SubMore(k, turns, 1 - turn);
    SubTied(h, k, NIL, turns);
    TiedParts(h, SubAt(k, turns), AuntAt(k, NIL, turns));
    SubRefs(k, turns);
    ApartParts(SubAt(k, turns));
    NotNil(Nk(SubAt(k, turns), turn));
  }
}
