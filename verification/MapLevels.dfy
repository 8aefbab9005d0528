/** Moving the entries of a cache up, row by row. */
module MapLevels {
  import opened Positions
  import opened Layouts
  import opened Entries
  import opened Sequential
  import opened Inverse
  import opened MapTheory
  import opened MapLift
  import opened MapMoves

  /** At or below one of the two siblings. */
  ghost predicate AtPair(g: Layout, s: nat, p: nat) {
    AtOrAbove(g, s, p) || AtOrAbove(g, Sibling(s), p)
  }

  /** The positions of row `h` at or below the two siblings. */
  ghost predicate Level(g: Layout, rows: nat, s: nat, xs: seq<nat>, h: nat) {
    Ascending(xs) && forall x: nat :: x in xs <==> Valid(rows, x) && Row(rows, x) == h && AtPair(g, s, x)
  }

  /** Row `h` and the rows above it are done. */
  ghost predicate DoneTo(g: Layout, rows: nat, s: nat, done: set<nat>, h: nat) {
    forall p: nat :: p in done <==> Valid(rows, p) && Under(g, s, p) && Row(rows, p) >= h
  }

  /** All positions below the two siblings. */
  ghost function AllUnder(g: Layout, s: nat): set<nat> {
    set p: nat | p < 2 * g.m - 1 && Under(g, s, p)
  }

  lemma {:induction false} RowAbove(g: Layout, rows: nat, a: nat, p: nat)
    requires g.m == Pow2(rows) && Above(g, a, p) && Valid(rows, a)
    ensures Valid(rows, p) && Row(rows, p) < Row(rows, a)
    decreases 2 * g.m - p
  {
    hide Row;
    AboveBounds(g, a, p);
    RowStep(rows, p);
    if g.Up(p) != a { RowAbove(g, rows, a, g.Up(p)); }
  }

  /** The two siblings are a level. */
  lemma {:induction false} FirstLevel(g: Layout, rows: nat, s: nat)
    requires GivesWay(g, rows, s)
    ensures Valid(rows, s) && Level(g, rows, s, SortPositions([Sibling(s), s]), Row(rows, s))
    ensures DoneTo(g, rows, s, {}, Row(rows, s))
  {
    hide Row, Layout.WellShaped, Layout.IsRoot, SortPositions, Above;
    g.NonRootFacts(s);
    g.NodeBound(s);
    NotLast(g, s);
    RowSibling(rows, s);
    var pair := [Sibling(s), s];
    SortPositionsFacts(pair);
    assert forall x: nat :: x in pair <==> x in Elems(pair);
    assert forall x: nat :: x in SortPositions(pair) <==> x in Elems(SortPositions(pair));
    forall x: nat | Above(g, s, x) || Above(g, Sibling(s), x)
      ensures Valid(rows, x) && Row(rows, x) < Row(rows, s)
    {
      RowAbove(g, rows, if Above(g, s, x) then s else Sibling(s), x);
    }
  }

  /** The positions of the next row are the children. */
  lemma {:induction false} NextLevel(g: Layout, rows: nat, s: nat, xs: seq<nat>, h: nat, x: nat)
    requires GivesWay(g, rows, s) && Level(g, rows, s, xs, h) && 0 < h && Valid(rows, s) && h <= Row(rows, s)
    ensures Valid(rows, x) && Row(rows, x) == h - 1 && AtPair(g, s, x) <==> x < 2 * g.m - 1 && g.Up(x) in xs
    ensures x < 2 * g.m - 1 && g.Up(x) in xs ==> Under(g, s, x)
  {
    hide Row, Layout.WellShaped, Layout.IsRoot, Above;
    g.NonRootFacts(s);
    NotLast(g, s);
    RowSibling(rows, s);
    if Valid(rows, x) && Row(rows, x) == h - 1 && AtPair(g, s, x) {
      var a := if AtOrAbove(g, s, x) then s else Sibling(s);
      AboveParent(g, a, x);
      AboveBounds(g, a, x);
      RowStep(rows, x);
    }
    if x < 2 * g.m - 1 && g.Up(x) in xs {
      var a := if AtOrAbove(g, s, g.Up(x)) then s else Sibling(s);
      AboveTrans(g, a, x);
      RowAbove(g, rows, g.Up(x), x) by { UpAboveAny(g, x); }
      AboveBounds(g, a, x);
      RowStep(rows, x);
    }
  }

  /** Below the pair is the same as at the pair, from the rows below it on. */
  lemma {:induction false} UnderIff(g: Layout, rows: nat, s: nat, x: nat)
    requires GivesWay(g, rows, s) && Valid(rows, x) && Valid(rows, s) && Row(rows, x) < Row(rows, s)
    ensures Under(g, s, x) <==> AtPair(g, s, x)
  {
    hide Row, Layout.WellShaped, Layout.IsRoot, Above;
    g.NonRootFacts(s);
    NotLast(g, s);
    RowSibling(rows, s);
  }

  /** While row `h - 1` is being moved: of it the children of the first `i` positions of row `h`. */
  ghost predicate DoneSome(g: Layout, rows: nat, s: nat, done: set<nat>, h: nat, xs: seq<nat>, i: nat)
    requires 0 < h && i <= |xs|
  {
    && Done(g, rows, s, done, h - 1)
    && forall x: nat :: Valid(rows, x) && Row(rows, x) == h - 1 ==> (x in done <==> g.Up(x) in xs[..i])
  }

  lemma {:induction false} BeginLevel(g: Layout, rows: nat, s: nat, done: set<nat>, h: nat, xs: seq<nat>)
    requires 0 < h && DoneTo(g, rows, s, done, h)
    ensures DoneSome(g, rows, s, done, h, xs, 0)
  {
    hide Row, Above;
  }

  lemma {:induction false} EndLevel(g: Layout, rows: nat, s: nat, done: set<nat>, h: nat, xs: seq<nat>, next: seq<nat>)
    requires GivesWay(g, rows, s) && Level(g, rows, s, xs, h) && 0 < h && Valid(rows, s) && h <= Row(rows, s)
    requires DoneSome(g, rows, s, done, h, xs, |xs|) && Ascending(next)
    requires forall x: nat :: x in next <==> Valid(rows, x) && Row(rows, x) == h - 1 && x in done
    ensures Level(g, rows, s, next, h - 1) && DoneTo(g, rows, s, done, h - 1)
  {
    hide Row, Above, Layout.WellShaped, Layout.IsRoot, AtPair, Under;
    assert xs[..|xs|] == xs;
    forall x: nat | Valid(rows, x) && Row(rows, x) == h - 1
      ensures x in done <==> AtPair(g, s, x)
      ensures x in done <==> Under(g, s, x)
    {
      NextLevel(g, rows, s, xs, h, x);
      UnderIff(g, rows, s, x);
    }
  }

  /** The children of the next position of row `h`. */
  lemma {:induction false} ChildrenDone(g: Layout, rows: nat, s: nat, done: set<nat>, h: nat, xs: seq<nat>, i: nat)
    requires GivesWay(g, rows, s) && Level(g, rows, s, xs, h) && 0 < h && Valid(rows, s) && h <= Row(rows, s)
    requires i < |xs| && DoneSome(g, rows, s, done, h, xs, i)
    ensures g.m <= xs[i] && Valid(rows, xs[i])
    ensures var l, r := g.Left(xs[i]), g.Right(xs[i]);
            && Valid(rows, l) && Valid(rows, r) && Row(rows, l) == h - 1 == Row(rows, r) && l !in done && r !in done
            && Under(g, s, l) && Under(g, s, r) && Row(rows, l) <= Row(rows, s) && Row(rows, r) <= Row(rows, s)
            && DoneSome(g, rows, s, done + {l} + {r}, h, xs, i + 1)
  {
    hide Row, Above, Layout.WellShaped, Layout.IsRoot, AtPair, Under;
    var x := xs[i];
    assert x in xs;
    HigherThanLeaves(g, rows, x);
    RowChildren(rows, x);
    var l, r := g.Left(x), g.Right(x);
    assert g.Up(l) == x && g.Up(r) == x;
    NextLevel(g, rows, s, xs, h, l);
    NextLevel(g, rows, s, xs, h, r);
    assert x !in xs[..i];
    DoneMore(g, rows, s, done, h - 1, l);
    DoneMore(g, rows, s, done + {l}, h - 1, r);
    assert xs[..i + 1] == xs[..i] + [x];
    forall y: nat | Valid(rows, y) && Row(rows, y) == h - 1
      ensures y in done + {l} + {r} <==> g.Up(y) in xs[..i + 1]
    {
      if g.Up(y) == x { assert y == l || y == r; }
    }
  }

  /** When row 0 is done, all is. */
  lemma {:induction false} DoneAll(g: Layout, rows: nat, s: nat, done: set<nat>)
    requires GivesWay(g, rows, s) && DoneTo(g, rows, s, done, 0)
    ensures done == AllUnder(g, s)
  {
    hide Row, Above, Layout.WellShaped, Layout.IsRoot;
  }

  /** At the start nothing has moved. */
  lemma MovedNone(g: Layout, s: nat, nodes: map<nat, Cached>)
    ensures MovedSet(g, s, nodes, nodes, {})
  {
    hide Shift;
  }
}
