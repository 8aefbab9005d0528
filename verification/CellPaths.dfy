/** Ways through the cells of a pollard. */
module CellPaths {
  import opened Nieces
  import opened Cells

  function Nk(k: Skel, turn: int): Skel {
    if k.NoSkel? then NoSkel else if turn % 2 == 0 then k.l else k.r
  }

  /** What some turns lead to. */
  function SubAt(k: Skel, turns: seq<int>): Skel {
    if |turns| == 0 then k else SubAt(Nk(k, turns[0]), turns[1..])
  }

  lemma {:induction false} SubMore(k: Skel, turns: seq<int>, turn: int)
    ensures SubAt(k, turns + [turn]) == Nk(SubAt(k, turns), turn)
    decreases |turns|
  {
    if |turns| > 0 {
      assert (turns + [turn])[1..] == turns[1..] + [turn];
      SubMore(Nk(k, turns[0]), turns[1..], turn);
    } else {
      assert ([] + [turn])[1..] == [];
    }
  }

  lemma {:induction false} SubNothing(turns: seq<int>)
    ensures SubAt(NoSkel, turns) == NoSkel
    decreases |turns|
  {
    if |turns| > 0 { SubNothing(turns[1..]); }
  }

  /** Below what is missing everything is missing. */
  lemma {:induction false} SubPrefix(k: Skel, turns: seq<int>, i: nat)
    requires i <= |turns| && SubAt(k, turns).Skel?
    ensures SubAt(k, turns[..i]).Skel?
    decreases |turns| - i
  {
    hide SubAt;
    if i < |turns| {
      SubPrefix(k, turns, i + 1);
      assert turns[..i + 1] == turns[..i] + [turns[i]];
      SubMore(k, turns[..i], turns[i]);
    } else {
      assert turns[..i] == turns;
    }
  }

  /** The cells of a part are cells of the whole. */
  lemma {:induction false} SubRefs(k: Skel, turns: seq<int>)
    ensures Refs(SubAt(k, turns)) <= Refs(k)
    ensures Apart(k) ==> Apart(SubAt(k, turns))
    decreases |turns|
  {
    if |turns| > 0 {
      SubRefs(Nk(k, turns[0]), turns[1..]);
    }
  }

  /** Following the nieces in the cells is following them in the nodes. */
  lemma {:induction false} SubValue(h: Heap, k: Skel, turns: seq<int>)
    requires Refs(k) <= h.Keys
    ensures Val(h, SubAt(k, turns)) == Follow(Val(h, k), turns)
    decreases |turns|
  {
    hide Follow;
    if |turns| > 0 {
      var front, last := turns[..|turns| - 1], turns[|turns| - 1];
      assert turns == front + [last];
      SubMore(k, front, last);
      FollowMore(Val(h, k), front, last);
      SubValue(h, k, front);
      SubRefs(k, front);
      NieceValue(h, SubAt(k, front), last);
    } else {
      FollowNone(Val(h, k));
    }
  }

  lemma NieceValue(h: Heap, k: Skel, turn: int)
    requires Refs(k) <= h.Keys
    ensures Val(h, Nk(k, turn)) == Niece(Val(h, k), turn)
  {
  }

  /** The aunt at the end of some turns. */
  function AuntAt(k: Skel, aunt: Ref, turns: seq<int>): Ref {
    if |turns| == 0 then aunt else RefOf(SubAt(k, turns[..|turns| - 1]))
  }

  lemma {:induction false} SubTied(h: Heap, k: Skel, aunt: Ref, turns: seq<int>)
    requires Tied(h, k, aunt) && SubAt(k, turns).Skel?
    ensures Tied(h, SubAt(k, turns), AuntAt(k, aunt, turns))
    decreases |turns|
  {
    hide Tied, SubAt;
    SubPrefix(k, turns, 0);
    assert turns[..0] == [];
    SubNone(k);
    if |turns| > 0 {
      var front, last := turns[..|turns| - 1], turns[|turns| - 1];
      assert turns == front + [last];
      SubPrefix(k, turns, |turns| - 1);
      SubTied(h, k, aunt, front);
      SubMore(k, front, last);
      TiedParts(h, SubAt(k, front), AuntAt(k, aunt, front));
    } else {
      assert turns == [];
    }
  }

  lemma SubNone(k: Skel)
    ensures SubAt(k, []) == k
  {
  }

  /** The node whose children hang from the end of some turns: the one beside it, or the root itself. */
  function NodeFor(k: Skel, turns: seq<int>): Ref {
    if |turns| == 0 then RefOf(k)
    else RefOf(Nk(SubAt(k, turns[..|turns| - 1]), 1 - turns[|turns| - 1]))
  }

  /** Two nieces are different cells. */
  lemma {:induction false} NiecesDiffer(k: Skel, turn: int)
    requires Apart(k) && Nk(k, turn).Skel?
    ensures k.Skel? && Nk(k, turn).ref != RefOf(Nk(k, 1 - turn)) && Nk(k, turn).ref != NIL && k.ref != NIL
    ensures Nk(k, turn).ref != k.ref && k.ref != RefOf(Nk(k, 1 - turn))
  {
    hide Apart, Refs;
    ApartParts(k);
    if Nk(k, turn).Skel? { RefsParts(Nk(k, turn)); ApartParts(Nk(k, turn)); }
    if Nk(k, 1 - turn).Skel? { RefsParts(Nk(k, 1 - turn)); ApartParts(Nk(k, 1 - turn)); }
  }

  /** A node of the pollard, by the turns to it. */
  ghost predicate NodeOn(h: Heap, k: Skel, turns: seq<int>, x: Ref) {
    Tied(h, k, NIL) && Apart(k) && SubAt(k, turns).Skel? && SubAt(k, turns).ref == x
  }

  /** What is known of a node that is not a root. */
  lemma {:induction false} NodeBelow(h: Heap, k: Skel, turns: seq<int>, x: Ref)
    requires NodeOn(h, k, turns, x) && |turns| > 0
    ensures var front, last := turns[..|turns| - 1], turns[|turns| - 1];
            var a := SubAt(k, front);
            && a.Skel? && NodeOn(h, k, front, a.ref) && x in h && a.ref in h && h[x].aunt == a.ref != NIL
            && Points(h, a) && Nk(a, last) == SubAt(k, turns) && Nk(a, last).Skel? && Nk(a, last).ref == x
            && RefOf(Nk(a, 1 - last)) != x && x != NIL && x != a.ref
  {
    hide Tied, SubAt, Apart;
    var front, last := turns[..|turns| - 1], turns[|turns| - 1];
    assert turns == front + [last];
    SubPrefix(k, turns, |turns| - 1);
    SubTied(h, k, NIL, front);
    SubTied(h, k, NIL, turns);
    SubMore(k, front, last);
    TiedParts(h, SubAt(k, front), AuntAt(k, NIL, front));
    TiedParts(h, SubAt(k, turns), AuntAt(k, NIL, turns));
    SubRefs(k, front);
    NiecesDiffer(SubAt(k, front), last);
  }

  lemma {:induction false} NodeTop(h: Heap, k: Skel, x: Ref)
    requires NodeOn(h, k, [], x)
    ensures k.Skel? && k.ref == x && x in h && h[x].aunt == NIL && x != NIL && Points(h, k)
  {
  }

  lemma OtherNiece(h: Heap, a: Skel, turn: int, x: Ref)
    requires a.Skel? && Points(h, a) && RefOf(Nk(a, turn)) == x != RefOf(Nk(a, 1 - turn))
    ensures RefOf(Nk(a, 1 - turn)) == if x == h[a.ref].lNiece then h[a.ref].rNiece else h[a.ref].lNiece
  {
  }

  method GetSibling(h: Heap, x: Ref, ghost k: Skel, ghost turns: seq<int>) returns (sibling: Ref)
    requires NodeOn(h, k, turns, x)
    ensures |turns| == 0 ==> sibling == NIL
    ensures |turns| > 0 ==> sibling == RefOf(Nk(SubAt(k, turns[..|turns| - 1]), 1 - turns[|turns| - 1]))
  {
    hide NodeOn, SubAt;
    if |turns| > 0 { NodeBelow(h, k, turns, x); } else { assert turns == []; NodeTop(h, k, x); }
    var aunt := h[x].aunt;
    if aunt == NIL {
      return NIL;
    }
    OtherNiece(h, SubAt(k, turns[..|turns| - 1]), turns[|turns| - 1], x);
    if x == h[aunt].lNiece {
      sibling := h[aunt].rNiece;
    } else {
      sibling := h[aunt].lNiece;
    }
  }

  /** The parent of a node is found from its aunt. */
  method GetParent(h: Heap, x: Ref, ghost k: Skel, ghost front: seq<int>) returns (parent: Ref)
    requires x in h && (h[x].aunt != NIL ==> NodeOn(h, k, front, h[x].aunt))
    ensures h[x].aunt == NIL ==> parent == NIL
    ensures h[x].aunt != NIL ==> parent == NodeFor(k, front)
  {
    hide NodeOn, SubAt;
    var aunt := h[x].aunt;
    if aunt == NIL {
      return NIL;
    }
    if |front| > 0 { NodeBelow(h, k, front, aunt); } else { assert front == []; SubNone(k); NodeTop(h, k, aunt); }
    if h[aunt].aunt == NIL {
      return aunt;
    }
    var upper := h[aunt].aunt;
    if h[upper].lNiece == aunt {
      parent := h[upper].rNiece;
    } else {
      parent := h[upper].lNiece;
    }
  }

  /** The children of the node beside the end of some turns, or of the root. */
  method GetChildren(h: Heap, x: Ref, ghost k: Skel, ghost turns: seq<int>, ghost own: seq<int>)
    returns (l: Ref, r: Ref)
    requires NodeOn(h, k, own, x) && SubAt(k, turns).Skel?
    requires own == if |turns| == 0 then [] else turns[..|turns| - 1] + [1 - turns[|turns| - 1]]
    ensures l == RefOf(SubAt(k, turns).l) && r == RefOf(SubAt(k, turns).r)
  {
    hide NodeOn, SubAt;
    SubNone(k);
    if |turns| > 0 { NodeBelow(h, k, own, x); } else { assert own == turns == []; NodeTop(h, k, x); }
    if h[x].aunt == NIL {
      return h[x].lNiece, h[x].rNiece;
    }
    var sibling := GetSibling(h, x, k, own);
    ghost var front, last := turns[..|turns| - 1], turns[|turns| - 1];
    assert own[..|own| - 1] == front && own[|own| - 1] == 1 - last;
    assert turns == front + [last];
    SubMore(k, front, last);
    BesidePoints(h, k, turns, own, x);
    l, r := h[sibling].lNiece, h[sibling].rNiece;
  }

  lemma {:induction false} BesidePoints(h: Heap, k: Skel, turns: seq<int>, own: seq<int>, x: Ref)
    requires NodeOn(h, k, own, x) && SubAt(k, turns).Skel? && |turns| > 0
    ensures Points(h, SubAt(k, turns)) && SubAt(k, turns).ref != NIL
    ensures RefOf(Nk(SubAt(k, turns[..|turns| - 1]), turns[|turns| - 1])) == SubAt(k, turns).ref
    ensures 0 <= turns[|turns| - 1] < 2 ==>
              Nk(SubAt(k, turns[..|turns| - 1]), 1 - (1 - turns[|turns| - 1])) == SubAt(k, turns)
  {
    hide SubAt, Apart, Tied;
    var front, last := turns[..|turns| - 1], turns[|turns| - 1];
    assert turns == front + [last];
    SubMore(k, front, last);
    SubTied(h, k, NIL, turns);
    TiedParts(h, SubAt(k, turns), AuntAt(k, NIL, turns));
    SubRefs(k, turns);
    ApartParts(SubAt(k, turns));
  }
}
