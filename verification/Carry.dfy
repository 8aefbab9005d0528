/** The carry of one added leaf, in final positions. */
module Carry {
  import opened Hashes
  import opened Options
  import opened Positions
  import opened Geometry
  import opened Layouts
  import opened Shape
  import opened Entries
  import opened Forests
  import opened Deletion
  import opened OneToOne
  import opened Sequential
  import opened DeTwin
  import opened Relocation
  import opened Slots
  import opened Uniqueness
  import opened Additions
  import opened Growth
  import opened Destroyed
  import opened Navigation
  import opened Moving

  /** The layouts before and after leaves are added to some slots. */
  ghost predicate Adding(o: Layout, g: Layout, before: seq<Hash>, adds: seq<Hash>, rows: nat) {
    && LayoutFor(o, rows, |before|) && LayoutFor(g, rows, |before| + |adds|)
    && (forall i :: 0 <= i < |adds| ==> adds[i] != Empty)
  }

  /** The empty roots written over, as a list, are the largest deleted positions. */
  lemma {:induction false} WrittenOverLargest(o: Layout, g: Layout, before: seq<Hash>, adds: seq<Hash>, ds: seq<nat>)
    requires Grows(o, g, before, adds) && Ascending(ds)
    requires forall p: nat :: p in ds <==> p in WrittenOver(o, g, before + adds)
    ensures Largest(g, WrittenOver(o, g, before + adds), ds)
    ensures forall i :: 0 <= i < |ds| ==> ds[i] in g.nodes && !g.IsRoot(ds[i])
  {
    hide Above, Collapse, Layout.WellShaped, StandsFor, ValidTargets, Gone, WrittenOver;
    var d := WrittenOver(o, g, before + adds);
    WrittenOverValid(o, g, before, adds);
    assert Elems(ds) == d;
    StandsForSelf(g, ds);
    WrittenOverTwins(o, g, before, adds, ds);
    Canonical(g, d, ds);
  }

  lemma {:induction false} WrittenOverTwins(o: Layout, g: Layout, before: seq<Hash>, adds: seq<Hash>, ds: seq<nat>)
    requires Grows(o, g, before, adds) && Ascending(ds)
    requires forall p: nat :: p in ds <==> p in WrittenOver(o, g, before + adds)
    ensures NoTwins(ds, |ds|)
    ensures forall i :: 0 <= i < |ds| ==> ds[i] in g.nodes && !g.IsRoot(ds[i])
  {
    hide Collapse, Layout.WellShaped;
    GrowsShaped(o, g, before, adds);
    forall j | 0 <= j < |ds|
      ensures o.IsRoot(ds[j]) && ds[j] in g.nodes && !g.IsRoot(ds[j])
    {
      assert ds[j] in ds;
    }
    forall j | 0 <= j < |ds| && j + 1 < |ds|
      ensures RightSib(ds[j]) != ds[j + 1]
    {
      o.RootFacts(ds[j]);
      o.RootFacts(ds[j + 1]);
    }
  }

  lemma {:induction false} WrittenOverValid(o: Layout, g: Layout, before: seq<Hash>, adds: seq<Hash>)
    requires Grows(o, g, before, adds)
    ensures ValidTargets(g, WrittenOver(o, g, before + adds))
  {
    hide Collapse, Layout.WellShaped, Above;
    var d := WrittenOver(o, g, before + adds);
    GrowsShaped(o, g, before, adds);
    forall t | t in d
      ensures !TouchedBelow(g, d, t)
    {
      if TouchedBelow(g, d, t) {
        var x := SomeBelow(g, d, t);
        OldRootsApart(o, g, before, adds, t, x);
        AboveBounds(g, t, x);
      }
    }
  }

  /** A node touched from below has a target below it. */
  lemma {:induction false} SomeBelow(g: Layout, d: set<nat>, p: nat) returns (x: nat)
    requires g.WellShaped() && TouchedBelow(g, d, p)
    ensures x in d && Above(g, p, x)
    decreases p
  {
    g.ChildFacts(p);
    var c := if Touched(g, d, g.Left(p)) then g.Left(p) else g.Right(p);
    if c in d {
      x := c;
    } else {
      x := SomeBelow(g, d, c);
    }
    AboveOf(g, p, c, x);
    AboveBelow(g, p, c, x);
  }

  lemma AboveBelow(g: Layout, p: nat, c: nat, x: nat)
    requires c < p && (x == c || Above(g, c, x)) && AtOrAbove(g, p, x)
    ensures Above(g, p, x)
  {
    if x != c { AboveBounds(g, c, x); }
  }

  /** Something is left at every upper node that is not empty. */
  lemma {:induction false} UpperKept(o: Layout, g: Layout, before: seq<Hash>, adds: seq<Hash>, p: nat)
    requires Grows(o, g, before, adds) && Upper(o, g, p)
    ensures var v, d := AssembledForest(o, g, before + adds), WrittenOver(o, g, before + adds);
            && Deletable(g, v, d) && Present(g, v, p)
            && Remains(g, v, d, p) == Collapse(g, before + adds, p)
            && Deleted(g, v, d) == ForestOf(g, before + adds)
  {
    hide Collapse, Layout.WellShaped, Rem, Deletable, ForestOf;
    var v := AssembledForest(o, g, before + adds);
    AssembledDeletable(o, g, before, adds);
    AddedForest(o, g, before, adds);
    AtUpper(o, g, before, adds, p);
    RemAssembled(o, g, before, adds, p);
    UpperPresent(o, g, before, adds, p);
  }

  lemma {:induction false} UpperPresent(o: Layout, g: Layout, before: seq<Hash>, adds: seq<Hash>, p: nat)
    requires Grows(o, g, before, adds) && Upper(o, g, p)
    ensures Present(g, AssembledForest(o, g, before + adds), p)
  {
    if !g.IsRoot(p) {
      UpperFacts(o, g, before, adds, p);
      AtUpper(o, g, before, adds, g.Up(p));
    }
  }

  /** The new place of an upper node that is not empty has the tree of its slots. */
  lemma {:induction false} UpperPlace(o: Layout, g: Layout, before: seq<Hash>, adds: seq<Hash>, p: nat)
    requires Grows(o, g, before, adds) && Upper(o, g, p) && !Collapse(g, before + adds, p).Nil?
    ensures At(g, ForestOf(g, before + adds), NewPos(g, WrittenOver(o, g, before + adds), p)) ==
            Collapse(g, before + adds, p)
    ensures NewPos(g, WrittenOver(o, g, before + adds), p) in g.nodes
  {
    hide Collapse, Layout.WellShaped, Rem, Deletable, ForestOf, At, NewPos;
    UpperKept(o, g, before, adds, p);
    MovedTo(g, AssembledForest(o, g, before + adds), WrittenOver(o, g, before + adds), p);
    GrowsShaped(o, g, before, adds);
    NewPosUp(g, WrittenOver(o, g, before + adds), p);
  }

  /** The first new leaf is moved by the empty roots written over. */
  lemma {:induction false} LeafMove(o: Layout, g: Layout, before: seq<Hash>, adds: seq<Hash>, ds: seq<nat>)
    requires Grows(o, g, before, adds) && |adds| > 0 && |before| < g.m && Ascending(ds)
    requires forall p: nat :: p in ds <==> p in WrittenOver(o, g, before + adds)
    ensures Separate(g, ds) && Clear(g, ds, |before|)
    ensures MoveAll(g, ds, |before|) == NewPos(g, WrittenOver(o, g, before + adds), |before|)
    ensures forall i :: 0 <= i < |ds| ==> !g.IsRoot(ds[i])
  {
    hide Collapse, Layout.WellShaped, Rem, Deletable, MoveAll, NewPos, Gone;
    var p := |before|;
    WrittenOverLargest(o, g, before, adds, ds);
    NewNotEmpty(o, g, before, adds, p);
    UpperKept(o, g, before, adds, p);
    Relocated(g, AssembledForest(o, g, before + adds), WrittenOver(o, g, before + adds), ds, p);
  }

  /** Where the leaf added next will be after all additions. */
  method AddPosition(numLeaves: nat, numAdds: nat, roots: seq<Hash>, ghost before: seq<Hash>, ghost adds: seq<Hash>,
                     ghost o: Layout, ghost g: Layout)
    returns (pos: nat)
    requires |before| == numLeaves && |adds| == numAdds > 0
    requires Adding(o, g, before, adds, TreeRows(numLeaves + numAdds)) && SameEmpty(roots, RootTrees(before, 0))
    ensures pos == NewPos(g, WrittenOver(o, g, before + adds), numLeaves)
  {
    hide Layout.WellShaped, Pending, WrittenOver, IsAncestor, CalcNextPosition, LayoutFor, Move, RootTrees, Grows;
    var rows := TreeRows(numLeaves + numAdds);
    LayoutFits(g, rows, numLeaves + numAdds);
    GrowsFor(rows, before, adds, o, g);
    var deleted := RootsToDestroy(numAdds, numLeaves, roots, before, adds, o, g);
    LeafMove(o, g, before, adds, deleted);
    pos := numLeaves;
    PendingStart(g, deleted, pos);
    for i := 0 to |deleted|
      invariant Pending(g, deleted, numLeaves, i, pos)
    {
      var del := deleted[i];
      MoveByArithmetic(g, rows, deleted, numLeaves, i, pos);
      PendingNext(g, deleted, numLeaves, i, pos);
      if IsAncestor(Parent(rows, del), pos, rows) {
        pos := CalcNextPosition(pos, del, rows).GetOr(0);
      }
    }
    PendingEnd(g, deleted, numLeaves, pos);
  }

  /** The node of row `h` on the way up from the leaf added to `n` leaves. */
  ghost predicate InChain(o: Layout, g: Layout, rows: nat, n: nat, h: nat, c: nat) {
    && c in g.nodes && c !in o.nodes && Valid(rows, c)
    && Row(rows, c) == h && Offset(rows, c) == Shr(n, h) && AllOnes(n, h)
  }

  /** A node that is there when one more leaf is added to `n` leaves. */
  ghost predicate ChainNode(rows: nat, n: nat, v: nat) {
    InForest(rows, n + 1, v) && !InForest(rows, n, v)
  }

  /** A root that is no longer a root then. */
  ghost predicate PoppedRoot(rows: nat, n: nat, v: nat) {
    IsRoot(rows, n, v) && !IsRoot(rows, n + 1, v)
  }

  lemma {:induction false} ChainStart(o: Layout, g: Layout, before: seq<Hash>, adds: seq<Hash>, rows: nat)
    requires Adding(o, g, before, adds, rows) && |adds| > 0
    ensures |before| < g.m && InChain(o, g, rows, |before|, 0, |before|)
  {
    var n := |before|;
    LayoutFits(g, rows, n + |adds|);
    LeafNode(o, rows, n, n);
    LeafNode(g, rows, n + |adds|, n);
    CollapseLeaf(g, rows, [], n);
  }

  /** One row up the chain: the left sibling is the root of that row. */
  lemma {:induction false} ChainUp(o: Layout, g: Layout, before: seq<Hash>, adds: seq<Hash>, rows: nat, h: nat, c: nat)
    requires Adding(o, g, before, adds, rows) && |adds| > 0
    requires InChain(o, g, rows, |before|, h, c) && Shr(|before|, h) % 2 == 1
    ensures c % 2 == 1 && !g.IsRoot(c) && InChain(o, g, rows, |before|, h + 1, g.Up(c))
    ensures o.IsRoot(c - 1) && c - 1 in g.nodes && Valid(rows, c - 1) && Row(rows, c - 1) == h
    ensures Block(before, h, Shr(|before|, h) - 1) == Collapse(g, before + adds, c - 1)
  {
    hide Row, Offset, IsRoot, Collapse, Block, InForest, RootPosition, Pow2;
    var n, k := |before|, |before| + |adds|;
    LayoutFits(g, rows, k);
    GrowsFor(rows, before, adds, o, g);
    g.NodeBound(c);
    NotTop(rows, c, n, h);
    RowStep(rows, c);
    RootOnRow(n, rows, h);
    var s := RootPosition(n, h, rows);
    RootValid(rows, n, s);
    SamePlace(rows, s, c - 1);
    LayoutAt(o, rows, n, s);
    CollapseBlock(g, rows, before + adds, s);
    BlockPrefix(before, adds, h, Shr(n, h) - 1);
    UpperFacts(o, g, before, adds, c);
    ChainParent(o, g, before, adds, c);
  }

  lemma NotTop(rows: nat, c: nat, n: nat, h: nat)
    requires Valid(rows, c) && Row(rows, c) == h && Offset(rows, c) == Shr(n, h) && Shr(n, h) % 2 == 1
    ensures c < 2 * Pow2(rows) - 2
  {
    if c == 2 * Pow2(rows) - 2 { RowUnique(rows, c, rows); }
  }

  lemma {:induction false} ChainParent(o: Layout, g: Layout, before: seq<Hash>, adds: seq<Hash>, c: nat)
    requires Grows(o, g, before, adds) && c in g.nodes && c !in o.nodes && c % 2 == 1
    ensures !g.IsRoot(c) && g.Up(c) in g.nodes && g.Up(c) !in o.nodes
  {
    if g.Up(c) in o.nodes {
      g.NonRootFacts(c);
      o.ChildFacts(g.Up(c));
    }
  }

  /** Up the chain, trees are joined, and places move as the left sibling allows. */
  lemma {:induction false} ChainPlaces(o: Layout, g: Layout, before: seq<Hash>, adds: seq<Hash>, c: nat)
    requires Grows(o, g, before, adds) && c in g.nodes && c !in o.nodes && c % 2 == 1 && !g.IsRoot(c)
    requires o.IsRoot(c - 1) && c - 1 in g.nodes
    ensures var slots, d, u := before + adds, WrittenOver(o, g, before + adds), g.Up(c);
            && Collapse(g, slots, u) == Join(Collapse(g, slots, c - 1), Collapse(g, slots, c))
            && !Collapse(g, slots, c).Nil?
            && if Collapse(g, slots, c - 1).Nil? then NewPos(g, d, c) == NewPos(g, d, u)
               else var q := NewPos(g, d, u);
                    q >= g.m && q in g.nodes && NewPos(g, d, c) == g.Right(q) && NewPos(g, d, c - 1) == g.Left(q)
  {
    hide Collapse, Layout.WellShaped, Rem, Deletable, ForestOf, At, NewPos, Gone, WrittenOver, AssembledForest, Grows,
         Join, Layout.IsRoot;
    var slots, u := before + adds, g.Up(c);
    var v, d := AssembledForest(o, g, slots), WrittenOver(o, g, slots);
    GrowsShaped(o, g, before, adds);
    g.NonRootFacts(c);
    NewNotEmpty(o, g, before, adds, c);
    CollapseStep(g, slots, u);
    UpperFacts(o, g, before, adds, c);
    UpperKept(o, g, before, adds, c);
    UpperKept(o, g, before, adds, c - 1);
    UpperKept(o, g, before, adds, u);
    KeptUp(g, v, d, c);
    NewPosChild(g, v, d, u);
  }

  /** There is one node of the chain on a row, and one root popped on a row. */
  lemma {:induction false} ChainUnique(o: Layout, g: Layout, before: seq<Hash>, adds: seq<Hash>, rows: nat, h: nat,
                                       c: nat, v: nat)
    requires Adding(o, g, before, adds, rows) && |adds| > 0 && InChain(o, g, rows, |before|, h, c)
    ensures ChainNode(rows, |before|, v) && Row(rows, v) == h ==> v == c
    ensures (c % 2 == 1 && o.IsRoot(c - 1) && Valid(rows, c - 1) && Row(rows, c - 1) == h &&
             PoppedRoot(rows, |before|, v) && Row(rows, v) == h) ==> v == c - 1
  {
    hide Row, Offset, Collapse, Block, RootPosition, Pow2;
    var n := |before|;
    LayoutFits(o, rows, n);
    if ChainNode(rows, n, v) && Row(rows, v) == h {
      CarryShr(n, h);
      SamePlace(rows, v, c);
    }
    if c % 2 == 1 && o.IsRoot(c - 1) && Valid(rows, c - 1) && Row(rows, c - 1) == h && PoppedRoot(rows, n, v) &&
       Row(rows, v) == h {
      LayoutAt(o, rows, n, c - 1);
      RootIsLeft(rows, n, v);
      RootIsLeft(rows, n, c - 1);
      SamePlace(rows, v, c - 1);
    }
  }

  /** Nothing happens above the carry. */
  lemma {:induction false} ChainEnds(rows: nat, n: nat, t: nat, v: nat)
    requires n + 1 <= Pow2(rows) && AllOnes(n, t) && Shr(n, t) % 2 == 0
    ensures ChainNode(rows, n, v) ==> Row(rows, v) <= t
    ensures PoppedRoot(rows, n, v) ==> Row(rows, v) < t
  {
    hide Row, Offset, Pow2;
    if ChainNode(rows, n, v) && Row(rows, v) > t {
      CarryAbove(n, t, Row(rows, v));
    }
    if PoppedRoot(rows, n, v) {
      RootsAfterCarry(rows, n, t, v);
    }
  }
}
