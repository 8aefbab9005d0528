/** A cache whose positions are renumbered for more rows. */
module MapRemap {
  import opened Hashes
  import opened Positions
  import opened Geometry
  import opened Layouts
  import opened Forests
  import opened Sequential
  import opened Slots
  import opened OneDeletion
  import opened Pollards
  import opened Translation
  import opened MapTheory
  import opened MapLift
  import opened MapForest
  import opened MapMoves

  /** The cache with every position renumbered. */
  ghost predicate Remapped(a: Layout, b: Layout, t: map<nat, nat>, nodes: map<nat, Cached>, nodes': map<nat, Cached>) {
    && (forall p :: p in t ==>
          (t[p] in nodes' <==> p in nodes) && (p in nodes && t[p] in nodes' ==> nodes'[t[p]] == nodes[p]))
    && (forall q :: q in nodes' ==> q in b.nodes)
  }

  /** What is above stays above. */
  lemma {:induction false} AboveSame(a: Layout, b: Layout, t: map<nat, nat>, y: nat, c: nat)
    requires SameForest(a, b, t) && y in t && c in t && AtOrAbove(b, t[y], t[c])
    ensures AtOrAbove(a, y, c)
    decreases 2 * a.m - c
  {
    hide SameForest, Layout.WellShaped, Layout.IsRoot, Corresponds, Above;
    SameShapes(a, b, t);
    SameNode(a, b, t, y);
    SameNode(a, b, t, c);
    if t[y] == t[c] {
      SameOnce(a, b, t, y, c);
    } else {
      RootBelow(b, t[y], t[c]);
      NotRootBelow(b, t[c]);
      UpSame(a, b, t, c);
      a.NonRootFacts(c);
      AboveParent(b, t[y], t[c]);
      AboveSame(a, b, t, y, a.Up(c));
      AboveTrans(a, y, c);
    }
  }

  /** What the cache must keep does not depend on the numbering. */
  lemma {:induction false} RemapKeeps(a: Layout, b: Layout, t: map<nat, nat>, slots: seq<Hash>, nodes: map<nat, Cached>,
                                      nodes': map<nat, Cached>)
    requires SameForest(a, b, t) && Keeps(a, ForestOf(a, slots), nodes) && Remapped(a, b, t, nodes, nodes')
    ensures Keeps(b, ForestOf(b, slots), nodes')
  {
    hide SameForest, Layout.WellShaped, Layout.IsRoot, Above, ForestOf, Keeps, TopsOk, TrueNodes, Provable, Aunts,
         Inside, Remapped, ForestOk, AllSolid;
    var f, f' := ForestOf(a, slots), ForestOf(b, slots);
    SameShapes(a, b, t);
    KeepsParts(a, f, nodes);
    SlotsSolid(b, slots);
    ForestTops(b, f');
    SolidKeys(b, f');
    forall q: nat
      ensures q in f' ==> q in nodes'
      ensures q in nodes' ==> Inside(b, f', q) && nodes'[q].hash == Merkle(Sees(b, f', q)) &&
                              (q !in f' ==> !Sees(b, f', q).Nil?) && (nodes'[q].remember ==> Sees(b, f', q).Leaf?)
    {
      if q in f' || q in nodes' { RemapTrue(a, b, t, slots, nodes, nodes', q); }
    }
    AllTrueNodes(b, f', nodes');
    forall y: nat, c | c in Remembered(nodes') && AtOrAbove(b, y, c) && Inside(b, f', y) && y !in f'
      ensures Sibling(y) in nodes'
    {
      InsideIff(b, f', y);
      RemapSibling(a, b, t, slots, nodes, nodes', y, c);
    }
    AllProvable(b, f', nodes');
    forall c | c in nodes' && c !in f' && b.Up(c) !in f'
      ensures Sibling(b.Up(c)) in nodes'
    {
      RemapAunt(a, b, t, slots, nodes, nodes', c);
    }
    AllAunts(b, f', nodes');
    KeepsWhole(b, f', nodes');
  }

  /** The same node in both numberings. */
  lemma {:induction false} SameNodes(a: Layout, b: Layout, t: map<nat, nat>, slots: seq<Hash>, q: nat) returns (p: nat)
    requires SameForest(a, b, t) && q in b.nodes
    ensures p in t && t[p] == q && p in a.nodes && a.WellShaped() && b.WellShaped()
    ensures q in ForestOf(b, slots) <==> p in ForestOf(a, slots)
    ensures q in ForestOf(b, slots) <==> b.IsRoot(q)
    ensures p in ForestOf(a, slots) <==> a.IsRoot(p)
    ensures Sees(b, ForestOf(b, slots), q) == Sees(a, ForestOf(a, slots), p)
    ensures Inside(b, ForestOf(b, slots), q) && Inside(a, ForestOf(a, slots), p)
  {
    hide SameForest, Layout.WellShaped, Layout.IsRoot, ForestOf, Inside, AllSolid, ForestOk, Sees, At;
    SameShapes(a, b, t);
    p := Untranslate(a, b, t, q);
    SameNode(a, b, t, p);
    AtSame(a, b, t, slots, p);
    SlotsSolid(a, slots);
    SlotsSolid(b, slots);
    SolidKeys(a, ForestOf(a, slots));
    SolidKeys(b, ForestOf(b, slots));
    SeesAt(a, ForestOf(a, slots), p);
    SeesAt(b, ForestOf(b, slots), q);
    InsideIff(a, ForestOf(a, slots), p);
    InsideIff(b, ForestOf(b, slots), q);
  }

  lemma {:induction false} RemapTrue(a: Layout, b: Layout, t: map<nat, nat>, slots: seq<Hash>, nodes: map<nat, Cached>,
                                     nodes': map<nat, Cached>, q: nat)
    requires SameForest(a, b, t) && TrueNodes(a, ForestOf(a, slots), nodes) && Remapped(a, b, t, nodes, nodes')
    requires q in nodes' || q in ForestOf(b, slots)
    ensures var f' := ForestOf(b, slots);
            && (q in f' ==> q in nodes')
            && (q in nodes' ==> Inside(b, f', q) && nodes'[q].hash == Merkle(Sees(b, f', q)) &&
                                (q !in f' ==> !Sees(b, f', q).Nil?) && (nodes'[q].remember ==> Sees(b, f', q).Leaf?))
  {
    assert q in b.nodes;
    hide SameForest, Layout.WellShaped, Layout.IsRoot, ForestOf, Inside, Sees, Merkle;
    var p := SameNodes(a, b, t, slots, q);
  }

  lemma {:induction false} RemapSibling(a: Layout, b: Layout, t: map<nat, nat>, slots: seq<Hash>,
                                        nodes: map<nat, Cached>, nodes': map<nat, Cached>, y: nat, c: nat)
    requires SameForest(a, b, t) && Provable(a, ForestOf(a, slots), nodes) && Remapped(a, b, t, nodes, nodes')
    requires c in Remembered(nodes') && AtOrAbove(b, y, c) && y in b.nodes && y !in ForestOf(b, slots)
    ensures Sibling(y) in nodes'
  {
    hide SameForest, Layout.WellShaped, Layout.IsRoot, ForestOf, Inside, Sees, Provable, AtOrAbove;
    var y0 := SameNodes(a, b, t, slots, y);
    var c0 := SameNodes(a, b, t, slots, c);
    assert c0 in Remembered(nodes);
    AboveSame(a, b, t, y0, c0);
    ProvableAt(a, ForestOf(a, slots), nodes, y0, c0);
    UpSame(a, b, t, y0);
  }

  lemma {:induction false} RemapAunt(a: Layout, b: Layout, t: map<nat, nat>, slots: seq<Hash>, nodes: map<nat, Cached>,
                                     nodes': map<nat, Cached>, c: nat)
    requires SameForest(a, b, t) && Aunts(a, ForestOf(a, slots), nodes) && Remapped(a, b, t, nodes, nodes')
    requires c in nodes' && c !in ForestOf(b, slots) && b.Up(c) !in ForestOf(b, slots)
    ensures Sibling(b.Up(c)) in nodes'
  {
    hide SameForest, Layout.WellShaped, Layout.IsRoot, ForestOf, Inside, Sees, Aunts;
    var c0 := SameNodes(a, b, t, slots, c);
    UpSame(a, b, t, c0);
    a.NonRootFacts(c0);
    b.NonRootFacts(c);
    var u0 := SameNodes(a, b, t, slots, b.Up(c));
    SameOnce(a, b, t, u0, a.Up(c0));
    AuntAt(a, ForestOf(a, slots), nodes, c0);
    UpSame(a, b, t, u0);
  }

  /** Cached leaves are renumbered as the cache is. */
  lemma {:induction false} RemapLinked(a: Layout, b: Layout, t: map<nat, nat>, nodes: map<nat, Cached>,
                                       nodes': map<nat, Cached>, cached: map<Hash, nat>, cached': map<Hash, nat>)
    requires SameForest(a, b, t) && Remapped(a, b, t, nodes, nodes') && Linked(nodes, cached) &&
             (forall p :: p in nodes ==> p in t)
    requires cached'.Keys == cached.Keys && forall h :: h in cached ==> cached[h] in t && cached'[h] == t[cached[h]]
    ensures Linked(nodes', cached')
  {
    hide SameForest, IsLeafHash;
    forall q | q in nodes' && nodes'[q].hash in cached'
      ensures cached'[nodes'[q].hash] == q
    {
      var p := Untranslate(a, b, t, q);
    }
  }

  /** The forest is full when one more leaf needs more rows. */
  lemma {:induction false} FullForest(n: nat, rows: nat)
    requires n <= Pow2(rows) && TreeRows(n + 1) > rows
    ensures n == Pow2(rows) && TreeRows(n + 1) == rows + 1
  {
    if n + 1 <= Pow2(rows) { RowsLeast(n + 1, rows); }
    PowStep(rows + 1);
    RowsLeast(n + 1, rows + 1);
  }

  /** Where a position goes when a row is added. */
  function NewNumber(rows: nat, p: nat): nat
    requires Valid(rows, p)
  {
    RowBounds(rows, p);
    TranslatePos(p, rows, rows + 1)
  }

  /** Leaves keep their numbers, and the others come after all old numbers. */
  lemma {:induction false} NewNumberFacts(rows: nat, p: nat)
    requires Valid(rows, p)
    ensures Row(rows, p) <= rows
    ensures p < Pow2(rows) ==> NewNumber(rows, p) == p
    ensures p >= Pow2(rows) ==> NewNumber(rows, p) >= 2 * Pow2(rows)
    ensures NewNumber(rows, p) == p - Start(rows, Row(rows, p)) + Start(rows + 1, Row(rows, p))
    ensures Valid(rows + 1, NewNumber(rows, p)) && Row(rows + 1, NewNumber(rows, p)) == Row(rows, p)
    ensures Offset(rows + 1, NewNumber(rows, p)) == Offset(rows, p)
  {
    hide Pow2, Start;
    RowBounds(rows, p);
    var r := Row(rows, p);
    StartOfRow(rows, r);
    StartOfRow(rows + 1, r);
    OffsetBound(rows, p);
    PowStep(rows + 1);
    PowStep(rows + 1 - r);
    TranslateRow(p, rows, rows + 1);
    if r > 0 { PowMono(rows + 2 - r, rows + 1); } else { LeafStart(rows); LeafStart(rows + 1); }
  }

  lemma StartOfRow(rows: nat, r: nat)
    requires r <= rows
    ensures Start(rows, r) == 2 * Pow2(rows) - Pow2(rows + 1 - r)
    ensures Start(rows, r + 1) == 2 * Pow2(rows) - Pow2(rows - r)
  {
  }

  lemma LeafStart(rows: nat)
    ensures Start(rows, 0) == 0
  {
    PowStep(rows + 1);
  }

  lemma {:induction false} OffsetBound(rows: nat, p: nat)
    requires Valid(rows, p)
    ensures Row(rows, p) <= rows && Offset(rows, p) < Pow2(rows - Row(rows, p))
  {
    RowBounds(rows, p);
    PowStep(rows + 1 - Row(rows, p));
  }

  lemma {:induction false} NewNumberOnce(rows: nat, p: nat, q: nat)
    requires Valid(rows, p) && Valid(rows, q) && NewNumber(rows, p) == NewNumber(rows, q)
    ensures p == q
  {
    hide Row, Offset, NewNumber;
    NewNumberFacts(rows, p);
    NewNumberFacts(rows, q);
    SamePlace(rows, p, q);
  }

  /** The positions before `i` have been renumbered. */
  ghost predicate RemappedTo(rows: nat, nodes: map<nat, Cached>, nodes': map<nat, Cached>, i: nat) {
    var m := Pow2(rows);
    && (forall p: nat :: p < m || i <= p < 2 * m ==>
          (p in nodes' <==> p in nodes) && (p in nodes && p in nodes' ==> nodes'[p] == nodes[p]))
    && (forall p: nat :: m <= p < i ==> p !in nodes')
    && (forall p: nat {:trigger NewNumber(rows, p)} :: m <= p < i && Valid(rows, p) ==>
          (NewNumber(rows, p) in nodes' <==> p in nodes) &&
              (p in nodes && NewNumber(rows, p) in nodes' ==> nodes'[NewNumber(rows, p)] == nodes[p]))
    && (forall q: nat :: q in nodes' && q >= 2 * m ==> NumberOf(rows, q, i))
  }

  /** A new number of a position before `i`. */
  ghost predicate NumberOf(rows: nat, q: nat, i: nat) {
    exists p: nat {:trigger NewNumber(rows, p)} :: Pow2(rows) <= p < i && Valid(rows, p) && NewNumber(rows, p) == q
  }

  lemma {:induction false} RemapStart(rows: nat, nodes: map<nat, Cached>)
    requires forall p :: p in nodes ==> Valid(rows, p)
    ensures RemappedTo(rows, nodes, nodes, Pow2(rows))
  {
    hide NewNumber;
  }

  /** The next new number is not in use. */
  lemma {:induction false} NumberFree(rows: nat, i: nat)
    requires Pow2(rows) <= i && Valid(rows, i)
    ensures NewNumber(rows, i) >= 2 * Pow2(rows) && !NumberOf(rows, NewNumber(rows, i), i)
    ensures forall p: nat {:trigger NewNumber(rows, p)} :: Pow2(rows) <= p < i && Valid(rows, p) ==>
              NewNumber(rows, p) != NewNumber(rows, i) && NewNumber(rows, p) >= 2 * Pow2(rows)
    ensures NumberOf(rows, NewNumber(rows, i), i + 1)
  {
    hide NewNumber, Pow2;
    NewNumberFacts(rows, i);
    forall p: nat | Pow2(rows) <= p < i && Valid(rows, p)
      ensures NewNumber(rows, p) != NewNumber(rows, i) && NewNumber(rows, p) >= 2 * Pow2(rows)
    {
      NewNumberFacts(rows, p);
      if NewNumber(rows, p) == NewNumber(rows, i) { NewNumberOnce(rows, p, i); }
    }
  }

  lemma {:induction false} NumberLater(rows: nat, q: nat, i: nat)
    requires NumberOf(rows, q, i)
    ensures NumberOf(rows, q, i + 1)
  {
    hide NewNumber;
    var p: nat :| Pow2(rows) <= p < i && Valid(rows, p) && NewNumber(rows, p) == q;
    assert Pow2(rows) <= p < i + 1;
  }

  lemma {:induction false} RemapStep(rows: nat, nodes: map<nat, Cached>, nodes': map<nat, Cached>, i: nat)
    requires RemappedTo(rows, nodes, nodes', i) && Pow2(rows) <= i && Valid(rows, i)
    ensures RemappedTo(rows, nodes, MoveNode(nodes', i, NewNumber(rows, i)), i + 1)
  {
    hide NewNumber, Pow2, NumberOf;
    var j, next := NewNumber(rows, i), MoveNode(nodes', i, NewNumber(rows, i));
    NumberFree(rows, i);
    assert j in next <==> i in nodes;
    forall q: nat | q in next && q >= 2 * Pow2(rows)
      ensures NumberOf(rows, q, i + 1)
    {
      if q != j { NumberLater(rows, q, i); }
    }
  }

  /** When all positions are renumbered, the cache is. */
  lemma {:induction false} RemapEnd(a: Layout, b: Layout, n: nat, rows: nat, nodes: map<nat, Cached>,
                                    nodes': map<nat, Cached>)
    requires LayoutFor(a, rows, n) && LayoutFor(b, rows + 1, n) && (forall p :: p in nodes ==> p in a.nodes)
    requires RemappedTo(rows, nodes, nodes', 2 * Pow2(rows) - 1)
    ensures Remapped(a, b, Translated(a, rows, rows + 1), nodes, nodes')
  {
    hide LayoutFor, Row, Translated, Pow2, Layout.WellShaped;
    var t := Translated(a, rows, rows + 1);
    LayoutFits(a, rows, n);
    LayoutFits(b, rows + 1, n);
    TranslatedKeys(a, rows, rows + 1);
    forall p | p in t
      ensures t[p] in nodes' <==> p in nodes
      ensures p in nodes && t[p] in nodes' ==> nodes'[t[p]] == nodes[p]
      ensures t[p] in b.nodes && Valid(rows, p) && t[p] == NewNumber(rows, p)
    {
      TranslatedAt(a, b, n, rows, rows + 1, p);
      NewNumberFacts(rows, p);
    }
    forall q | q in nodes'
      ensures q in b.nodes
    {
      if q < Pow2(rows) {
        NewNumberFacts(rows, q);
      } else if q >= 2 * Pow2(rows) {
        var p: nat :| Pow2(rows) <= p < 2 * Pow2(rows) - 1 && Valid(rows, p) && NewNumber(rows, p) == q;
        assert p in nodes;
      } else {
        assert q in nodes ==> q in a.nodes;
        if q in a.nodes { a.NodeBound(q); }
      }
    }
  }

  lemma {:induction false} ShrPow(rows: nat, h: nat)
    requires h <= rows
    ensures Shr(Pow2(rows), h) == Pow2(rows - h)
  {
    if h > 0 { ShrPow(rows, h - 1); PowStep(rows - h + 1); }
  }

  /** In a full forest every row is full. */
  lemma {:induction false} FullRow(rows: nat, h: nat)
    requires 1 <= h <= rows
    ensures MaxPositionAtRow(h, rows, Pow2(rows)) + 1 == Start(rows, h + 1)
    ensures Pow2(rows) <= Start(rows, h) < Start(rows, h + 1) < 2 * Pow2(rows)
  {
    hide Pow2, Shr;
    ShrPow(rows, h);
    StartOfRow(rows, h);
    PowStep(rows + 1 - h);
    PowMono(rows + 1 - h, rows);
    assert Start(rows, h) + Pow2(rows - h) == Start(rows, h + 1);
  }

  lemma RowEdges(rows: nat)
    ensures Start(rows, 1) == Pow2(rows) && Start(rows, rows + 1) == 2 * Pow2(rows) - 1
  {
    PowStep(rows + 1);
  }

  /** On a row the new numbers follow one another. */
  lemma {:induction false} NextNumber(rows: nat, h: nat, i: nat)
    requires 1 <= h <= rows && Start(rows, h) <= i < Start(rows, h + 1)
    ensures Valid(rows, i) && NewNumber(rows, i) == i - Start(rows, h) + Start(rows + 1, h)
    ensures Pow2(rows) <= i
  {
    hide Pow2, Start, NewNumber, MaxPositionAtRow;
    FullRow(rows, h);
    RowUnique(rows, i, h);
    NewNumberFacts(rows, i);
  }

  /** The rows there are, or more if the leaves need more. */
  function MoreRows(rows: nat, n: nat): nat {
    if TreeRows(n) > rows then TreeRows(n) else rows
  }

  lemma {:induction false} RowsGrow(n: nat, k: nat)
    requires n <= k
    ensures TreeRows(n) <= TreeRows(k)
  {
    hide Pow2, TreeRows;
    if TreeRows(n) > TreeRows(k) { PowMono(TreeRows(k), TreeRows(n) - 1); }
  }

  lemma {:induction false} MoreRowsTwice(rows: nat, n: nat, k: nat)
    requires n <= k
    ensures MoreRows(MoreRows(rows, n), k) == MoreRows(rows, k)
  {
    RowsGrow(n, k);
  }

  /** With room for the leaves no more rows are needed. */
  lemma {:induction false} EnoughRows(rows: nat, n: nat)
    requires n <= Pow2(rows)
    ensures MoreRows(rows, n) == rows
  {
    hide Pow2, TreeRows;
    if TreeRows(n) > rows { PowMono(rows, TreeRows(n) - 1); }
  }
}
