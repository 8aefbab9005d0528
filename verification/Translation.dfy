/** The same forest, allocated more rows. */
module Translation {
  import opened Hashes
  import opened Positions
  import opened Geometry
  import opened Layouts
  import opened Shape
  import opened Entries
  import opened Forests
  import opened Slots

  /** A node of the forest has a position in any number of rows with room for the leaves,
      on the same row. */
  lemma {:induction false} TranslateNode(n: nat, from: nat, to: nat, p: nat)
    requires n <= Pow2(from) && n <= Pow2(to) && InForest(from, n, p)
    ensures Row(from, p) <= to
    ensures var q := TranslatePos(p, from, to);
            InForest(to, n, q) && Row(to, q) == Row(from, p) && Offset(to, q) == Offset(from, p)
  {
    hide Pow2, Row, Offset, TreeRows;
    var r := Row(from, p);
    RowFits(n, r);
    RowsLeast(n, to);
    ShrBound(n, to, r);
    TranslateRow(p, from, to);
  }

  lemma {:induction false} RowsLeast(n: nat, rows: nat)
    requires n <= Pow2(rows)
    ensures TreeRows(n) <= rows
  {
    if rows < TreeRows(n) { PowMono(rows, TreeRows(n) - 1); }
  }

  /** Translating back gives the position itself. */
  lemma {:induction false} TranslateBack(n: nat, from: nat, to: nat, p: nat)
    requires n <= Pow2(from) && n <= Pow2(to) && InForest(from, n, p)
    ensures Row(from, p) <= to
    ensures Valid(to, TranslatePos(p, from, to)) && Row(to, TranslatePos(p, from, to)) <= from
    ensures TranslatePos(TranslatePos(p, from, to), to, from) == p
  {
    hide Pow2, Row, Start;
    TranslateNode(n, from, to, p);
    var q := TranslatePos(p, from, to);
    TranslateNode(n, to, from, q);
    SamePlace(from, p, TranslatePos(q, to, from));
  }

  /** Translating keeps the order. */
  lemma {:induction false} TranslateOrder(n: nat, from: nat, to: nat, p: nat, q: nat)
    requires n <= Pow2(from) && n <= Pow2(to) && InForest(from, n, p) && InForest(from, n, q) && p < q
    ensures Row(from, p) <= to && Row(from, q) <= to
    ensures TranslatePos(p, from, to) < TranslatePos(q, from, to)
  {
    hide Pow2, Start, Row;
    TranslateNode(n, from, to, p);
    TranslateNode(n, from, to, q);
    RowMonotone(from, p, q);
    var a, b := TranslatePos(p, from, to), TranslatePos(q, from, to);
    if b <= a {
      RowMonotone(to, b, a);
    }
  }

  /** `t` takes every node of `a` to the node of `b` at the same place, in order. */
  ghost predicate SameForest(a: Layout, b: Layout, t: map<nat, nat>) {
    && a.WellShaped() && b.WellShaped() && t.Keys == a.nodes
    && (forall p :: p in t ==> t[p] in b.nodes && Corresponds(a, b, t, p))
    && (forall p, q :: p in t && q in t && p < q ==> t[p] < t[q])
    && (forall q :: q in b.nodes ==> q in t.Values)
  }

  /** A leaf stays; the children and the parent go where they must. */
  ghost predicate Corresponds(a: Layout, b: Layout, t: map<nat, nat>, p: nat)
    requires p in t
  {
    && (p < a.m <==> t[p] < b.m) && (p < a.m ==> t[p] == p)
    && (a.IsRoot(p) <==> b.IsRoot(t[p]))
    && (p >= a.m && t[p] >= b.m ==>
          a.Left(p) in t && t[a.Left(p)] == b.Left(t[p]) && a.Right(p) in t && t[a.Right(p)] == b.Right(t[p]))
  }

  ghost function Translated(a: Layout, from: nat, to: nat): map<nat, nat> {
    map p | p in a.nodes :: if Valid(from, p) && Row(from, p) <= to then TranslatePos(p, from, to) else 0
  }

  lemma {:induction false} TranslatedAt(a: Layout, b: Layout, n: nat, from: nat, to: nat, p: nat)
    requires LayoutFor(a, from, n) && LayoutFor(b, to, n) && p in a.nodes
    ensures Valid(from, p) && Row(from, p) <= to && InForest(from, n, p)
    ensures var q := Translated(a, from, to)[p];
            q == TranslatePos(p, from, to) && q in b.nodes && Valid(to, q) && Row(to, q) == Row(from, p) &&
                Offset(to, q) == Offset(from, p)
  {
    hide Pow2, Row, Offset, Start, LayoutFor;
    LayoutFits(a, from, n);
    LayoutFits(b, to, n);
    LayoutAt(a, from, n, p);
    TranslateNode(n, from, to, p);
    LayoutAt(b, to, n, TranslatePos(p, from, to));
  }

  lemma {:induction false} TranslatedLeaf(a: Layout, b: Layout, n: nat, from: nat, to: nat, p: nat)
    requires LayoutFor(a, from, n) && LayoutFor(b, to, n) && p in a.nodes
    ensures var q := Translated(a, from, to)[p];
            (p < a.m <==> q < b.m) && (p < a.m ==> q == p) && (a.IsRoot(p) <==> b.IsRoot(q))
  {
    hide Pow2, Offset, Start, LayoutFor, Shr, Translated, Layout.IsRoot;
    LayoutFits(a, from, n);
    LayoutFits(b, to, n);
    TranslatedKeys(a, from, to);
    TranslatedAt(a, b, n, from, to, p);
    var q := Translated(a, from, to)[p];
    LayoutAt(a, from, n, p);
    LayoutAt(b, to, n, q);
    RootIff(from, n, p);
    RootIff(to, n, q);
    if p < a.m { LeafOffset(from, p); LeafOffset(to, q); }
  }

  lemma LeafOffset(rows: nat, p: nat)
    requires Valid(rows, p) && Row(rows, p) == 0
    ensures Offset(rows, p) == p
  {
    PowStep(rows + 1);
  }

  lemma {:induction false} TranslatedChildren(a: Layout, b: Layout, n: nat, from: nat, to: nat, p: nat)
    requires LayoutFor(a, from, n) && LayoutFor(b, to, n) && p in a.nodes && p >= a.m
    requires Translated(a, from, to)[p] >= b.m
    ensures var t := Translated(a, from, to);
            a.Left(p) in t && t[a.Left(p)] == b.Left(t[p]) && a.Right(p) in t && t[a.Right(p)] == b.Right(t[p])
  {
    hide Pow2, Row, Offset, Start, LayoutFor, Shr, Layout.IsRoot;
    LayoutFits(a, from, n);
    LayoutFits(b, to, n);
    TranslatedAt(a, b, n, from, to, p);
    var t := Translated(a, from, to);
    var q := t[p];
    a.ChildFacts(p);
    TranslatedAt(a, b, n, from, to, a.Left(p));
    TranslatedAt(a, b, n, from, to, a.Right(p));
    RowChildren(from, p);
    RowChildren(to, q);
    SamePlace(to, t[a.Left(p)], b.Left(q));
    SamePlace(to, t[a.Right(p)], b.Right(q));
  }

  lemma {:induction false} SameForestFor(a: Layout, b: Layout, n: nat, from: nat, to: nat)
    requires LayoutFor(a, from, n) && LayoutFor(b, to, n)
    ensures SameForest(a, b, Translated(a, from, to))
  {
    hide Pow2, Row, Offset, Start, LayoutFor, Shr, Layout.IsRoot, Layout.WellShaped, Translated, Layout.Left,
         Layout.Right, InForest;
    LayoutFits(a, from, n);
    LayoutFits(b, to, n);
    var t := Translated(a, from, to);
    TranslatedKeys(a, from, to);
    forall p | p in t
      ensures t[p] in b.nodes && Corresponds(a, b, t, p)
    {
      TranslatedAt(a, b, n, from, to, p);
      TranslatedLeaf(a, b, n, from, to, p);
      if p >= a.m && t[p] >= b.m { TranslatedChildren(a, b, n, from, to, p); }
    }
    forall p, q | p in t && q in t && p < q
      ensures t[p] < t[q]
    {
      TranslatedAt(a, b, n, from, to, p);
      TranslatedAt(a, b, n, from, to, q);
      TranslateOrder(n, from, to, p, q);
    }
    forall q | q in b.nodes
      ensures q in t.Values
    {
      TranslatedAt(b, a, n, to, from, q);
      var p := TranslatePos(q, to, from);
      TranslateBack(n, to, from, q);
      TranslatedAt(a, b, n, from, to, p);
      assert t[p] == q;
    }
  }

  lemma TranslatedKeys(a: Layout, from: nat, to: nat)
    ensures Translated(a, from, to).Keys == a.nodes
  {
  }

  ghost function Image(t: map<nat, nat>, s: set<nat>): set<nat> {
    set x | x in s && x in t :: t[x]
  }

  lemma SameShapes(a: Layout, b: Layout, t: map<nat, nat>)
    requires SameForest(a, b, t)
    ensures a.WellShaped() && b.WellShaped() && t.Keys == a.nodes
  {
  }

  lemma SameNode(a: Layout, b: Layout, t: map<nat, nat>, p: nat)
    requires SameForest(a, b, t) && p in a.nodes
    ensures p in t && t[p] in b.nodes && Corresponds(a, b, t, p) && p < 2 * a.m - 1 && t[p] < 2 * b.m - 1
    ensures a.IsRoot(p) <==> b.IsRoot(t[p])
  {
  }

  lemma SameOnce(a: Layout, b: Layout, t: map<nat, nat>, p: nat, q: nat)
    requires SameForest(a, b, t) && p in t && q in t && t[p] == t[q]
    ensures p == q
  {
    hide Layout.WellShaped, Corresponds;
    var x, y := t[p], t[q];
    assert p < q ==> x < y;
    assert q < p ==> y < x;
  }

  lemma {:induction false} CollapseSame(a: Layout, b: Layout, t: map<nat, nat>, slots: seq<Hash>, p: nat)
    requires SameForest(a, b, t) && p in a.nodes
    ensures p in t && Collapse(b, slots, t[p]) == Collapse(a, slots, p)
    decreases p
  {
    hide SameForest, Layout.WellShaped, Layout.IsRoot;
    SameShapes(a, b, t);
    SameNode(a, b, t, p);
    if p >= a.m {
      a.ChildFacts(p);
      CollapseSame(a, b, t, slots, a.Left(p));
      CollapseSame(a, b, t, slots, a.Right(p));
    }
  }

  lemma {:induction false} UpSame(a: Layout, b: Layout, t: map<nat, nat>, p: nat)
    requires SameForest(a, b, t) && p in a.nodes && !a.IsRoot(p)
    ensures p in t && a.Up(p) in t && t[a.Up(p)] == b.Up(t[p]) && t[a.Up(p)] >= b.m && t[p] % 2 == p % 2
    ensures t[p] in b.nodes && !b.IsRoot(t[p])
    ensures Sibling(p) in t && t[Sibling(p)] == Sibling(t[p])
  {
    hide SameForest, Layout.WellShaped, Layout.IsRoot;
    SameShapes(a, b, t);
    a.NonRootFacts(p);
    var u := a.Up(p);
    SameNode(a, b, t, p);
    SameNode(a, b, t, u);
    b.ChildFacts(t[u]);
  }

  /** The same tree is at the same place. */
  lemma {:induction false} AtSame(a: Layout, b: Layout, t: map<nat, nat>, slots: seq<Hash>, p: nat)
    requires SameForest(a, b, t) && p in a.nodes
    ensures p in t && At(b, ForestOf(b, slots), t[p]) == At(a, ForestOf(a, slots), p)
    decreases 2 * a.m - p
  {
    hide SameForest, Layout.WellShaped, Corresponds, Collapse, Layout.IsRoot;
    SameShapes(a, b, t);
    SameNode(a, b, t, p);
    if a.IsRoot(p) {
      CollapseSame(a, b, t, slots, p);
      AtRoot(a, slots, p);
      AtRoot(b, slots, t[p]);
    } else {
      UpSame(a, b, t, p);
      a.NonRootFacts(p);
      AtSame(a, b, t, slots, a.Up(p));
    }
  }

  lemma {:induction false} ImageAt(a: Layout, b: Layout, t: map<nat, nat>, s: set<nat>, p: nat)
    requires SameForest(a, b, t) && p in t
    ensures t[p] in Image(t, s) <==> p in s
  {
    hide SameForest;
    if t[p] in Image(t, s) {
      var x :| x in s && x in t && t[x] == t[p];
      SameOnce(a, b, t, x, p);
    }
  }

  lemma {:induction false} TouchedSame(a: Layout, b: Layout, t: map<nat, nat>, s: set<nat>, p: nat)
    requires SameForest(a, b, t) && p in a.nodes
    ensures p in t && (Touched(b, Image(t, s), t[p]) <==> Touched(a, s, p))
    decreases p
  {
    hide Image, SameForest, Layout.WellShaped, Layout.IsRoot;
    SameShapes(a, b, t);
    SameNode(a, b, t, p);
    ImageAt(a, b, t, s, p);
    if p >= a.m {
      a.ChildFacts(p);
      TouchedSame(a, b, t, s, a.Left(p));
      TouchedSame(a, b, t, s, a.Right(p));
    }
  }

  /** The same positions are needed, at their new numbers. */
  lemma {:induction false} ProofPosSame(a: Layout, b: Layout, t: map<nat, nat>, s: set<nat>, p: nat)
    requires SameForest(a, b, t) && p in a.nodes
    ensures p in t && (IsProofPos(b, Image(t, s), t[p]) <==> IsProofPos(a, s, p))
  {
    hide Image, Touched, SameForest, Layout.WellShaped, Corresponds, Layout.IsRoot;
    SameShapes(a, b, t);
    SameNode(a, b, t, p);
    TouchedSame(a, b, t, s, p);
    if !a.IsRoot(p) {
      UpSame(a, b, t, p);
      a.NonRootFacts(p);
      TouchedSame(a, b, t, s, Sibling(p));
    }
  }

  /** A list with every position translated. */
  ghost predicate Renumbered(t: map<nat, nat>, list: seq<Entry>, r: seq<Entry>) {
    && |r| == |list|
    && forall i :: 0 <= i < |list| ==> list[i].pos in t && r[i] == Entry(t[list[i].pos], list[i].hash)
  }

  lemma {:induction false} RenumberedFacts(a: Layout, b: Layout, t: map<nat, nat>, list: seq<Entry>, r: seq<Entry>)
    requires SameForest(a, b, t) && Sorted(list) && Renumbered(t, list, r)
    ensures Sorted(r)
    ensures forall p: nat, h: Hash :: p in t ==> (Entry(t[p], h) in r <==> Entry(p, h) in list)
    ensures forall e: Entry :: e in r ==> e.pos in b.nodes
  {
    hide Corresponds, Layout.WellShaped;
    forall p: nat, h: Hash | p in t
      ensures Entry(t[p], h) in r <==> Entry(p, h) in list
    {
      if Entry(t[p], h) in r {
        var i :| 0 <= i < |r| && r[i] == Entry(t[p], h);
        SameOnce(a, b, t, p, list[i].pos);
        assert list[i] == Entry(p, h);
      }
      if Entry(p, h) in list {
        var i :| 0 <= i < |list| && list[i] == Entry(p, h);
        assert r[i] == Entry(t[p], h);
      }
    }
    forall e: Entry | e in r
      ensures e.pos in b.nodes
    {
      var i :| 0 <= i < |r| && r[i] == e;
    }
  }

  /** Every node is the translation of one. */
  lemma {:induction false} Untranslate(a: Layout, b: Layout, t: map<nat, nat>, q: nat) returns (p: nat)
    requires SameForest(a, b, t) && q in b.nodes
    ensures p in a.nodes && p in t && t[p] == q
  {
    assert q in t.Values;
    p :| p in t && t[p] == q;
  }

  /** Translating the rows of an entry's position, when the forest gets more of them. */
  method MaybeRemap(numLeaves: nat, numAdds: nat, hnp: seq<Entry>, ghost a: Layout) returns (r: seq<Entry>)
    requires LayoutFor(a, TreeRows(numLeaves), numLeaves)
    requires forall e: Entry :: e in hnp ==> e.pos in a.nodes
    ensures Renumbered(Translated(a, TreeRows(numLeaves), TreeRows(numLeaves + numAdds)), hnp, r)
  {
    hide Pow2, Row, Offset, Start, LayoutFor, InForest, TreeRows, Translated;
    var newForestRows, oldForestRows := TreeRows(numLeaves + numAdds), TreeRows(numLeaves);
    RowsLeast(numLeaves, newForestRows);
    ghost var t := Translated(a, oldForestRows, newForestRows);
    TranslatedKeys(a, oldForestRows, newForestRows);
    r := hnp;
    assert forall i :: 0 <= i < |hnp| ==> hnp[i] in hnp;
    if newForestRows > oldForestRows {
      for i := 0 to |hnp|
        invariant |r| == |hnp|
        invariant forall j :: 0 <= j < i ==> r[j] == Entry(t[hnp[j].pos], hnp[j].hash)
        invariant forall j :: i <= j < |hnp| ==> r[j] == hnp[j]
      {
        var pos := hnp[i].pos;
        RemapPosition(a, numLeaves, oldForestRows, newForestRows, pos);
        var row := Row(oldForestRows, pos);
        var oldStartPos, newStartPos := Start(oldForestRows, row), Start(newForestRows, row);
        var offset := pos - oldStartPos;
        r := r[i := Entry(offset + newStartPos, hnp[i].hash)];
      }
    } else {
      forall i | 0 <= i < |hnp|
        ensures t[hnp[i].pos] == hnp[i].pos
      {
        RemapPosition(a, numLeaves, oldForestRows, newForestRows, hnp[i].pos);
      }
    }
  }

  lemma {:induction false} RemapPosition(a: Layout, n: nat, from: nat, to: nat, p: nat)
    requires LayoutFor(a, from, n) && from <= to && p in a.nodes
    ensures Valid(from, p) && Row(from, p) <= from && Start(from, Row(from, p)) <= p
    ensures p in Translated(a, from, to)
    ensures Translated(a, from, to)[p] == p - Start(from, Row(from, p)) + Start(to, Row(from, p))
    ensures from == to ==> Translated(a, from, to)[p] == p
  {
    hide Pow2, Row, Start, LayoutFor;
    LayoutFits(a, from, n);
    LayoutAt(a, from, n, p);
    RowBounds(from, p);
  }
}
