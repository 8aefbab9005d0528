/** Moving the positions of a list up after deletions. */
module NewPositions {
  import opened Hashes
  import opened Options
  import opened Positions
  import opened Geometry
  import opened Layouts
  import opened Entries
  import opened Sequential
  import opened Navigation
  import opened TreeIndex
  import opened Moving

  /** Where the entry goes. */
  ghost function MovedEntry(g: Layout, ds: seq<nat>, e: Entry): Entry {
    Entry(MoveAll(g, ds, e.pos), e.hash)
  }

  /** The positions can be moved: none is deleted, and no two meet. */
  ghost predicate Movable(g: Layout, ds: seq<nat>, slice: seq<Entry>, appendRoots: bool) {
    && Separate(g, ds)
    && (forall e :: e in slice && e.hash != Empty ==> Clear(g, ds, e.pos))
    && (forall e :: e in slice && e.hash != Empty && !appendRoots ==> !g.IsRoot(MoveAll(g, ds, e.pos)))
    && (forall i, j :: 0 <= i < j < |slice| && slice[i].hash != Empty && slice[j].hash != Empty ==>
          MoveAll(g, ds, slice[i].pos) != MoveAll(g, ds, slice[j].pos))
  }

  /** A root stays where it is. */
  lemma {:induction false} RootStays(g: Layout, ds: seq<nat>, p: nat)
    requires Separate(g, ds) && g.IsRoot(p) && Clear(g, ds, p)
    ensures MoveAll(g, ds, p) == p
  {
    hide Above, Layout.WellShaped, Lifted, MoveAll;
    OneAtATime(g, ds, p);
    LiftedAtRoot(g, Elems(ds), p);
  }

  lemma LiftedAtRoot(g: Layout, ds: set<nat>, p: nat)
    requires g.IsRoot(p)
    ensures Lifted(g, ds, p) == p
  {
  }

  /** A position and a deletion in different trees have nothing to do with each other; in
      the same tree, the deletion is not the root. */
  lemma {:induction false} TreesApart(g: Layout, rows: nat, n: nat, d: nat, p: nat)
    requires LayoutFor(g, rows, n) && d in g.nodes && p in g.nodes && !AtOrAbove(g, d, p)
    ensures Valid(rows, RootOf(g, d)) && Valid(rows, RootOf(g, p))
    ensures BiggerTrees(n, Row(rows, RootOf(g, d)), rows) != BiggerTrees(n, Row(rows, RootOf(g, p)), rows) ==>
            Move(g, d, p) == p
    ensures BiggerTrees(n, Row(rows, RootOf(g, d)), rows) == BiggerTrees(n, Row(rows, RootOf(g, p)), rows) ==>
            !g.IsRoot(d)
  {
    hide Above, Layout.WellShaped, Row, BiggerTrees, Shift, RootOf;
    LayoutFits(g, rows, n);
    SameIndex(g, rows, n, d, p);
    RootOfFacts(g, p);
    if g.IsRoot(d) {
      RootOfRoot(g, d);
    } else {
      g.NonRootFacts(d);
      if Above(g, g.Up(d), p) {
        SameTree(g, g.Up(d), p);
        UpAbove(g, d);
        SameTree(g, g.Up(d), d);
      }
    }
  }

  /** Move one position by all deletions. */
  method MovePosition(pos: nat, row: nat, blockTargets: seq<nat>, n: nat, ghost g: Layout) returns (nextPos: nat)
    requires LayoutFor(g, TreeRows(n), n) && Separate(g, blockTargets) && Clear(g, blockTargets, pos)
    ensures nextPos == MoveAll(g, blockTargets, pos)
  {
    hide Pending, LayoutFor, Separate, Clear, MoveAll, Move, IsAncestor, CalcNextPosition, BiggerTrees, RootOf, Row,
         Layout.IsRoot;
    var rows := TreeRows(n);
    LayoutFits(g, rows, n);
    nextPos := pos;
    PendingStart(g, blockTargets, pos);
    for i := 0 to |blockTargets|
      invariant Pending(g, blockTargets, pos, i, nextPos)
    {
      var target := blockTargets[i];
      if IsRootPositionOnRow(nextPos, n, row) {
        PendingRoot(g, n, blockTargets, pos, i, nextPos, row);
        break;
      }
      MoveByArithmetic(g, rows, blockTargets, pos, i, nextPos);
      PendingNext(g, blockTargets, pos, i, nextPos);
      var _, subtree, _, _ := DetectOffset(target, n, g);
      var _, subtree1, _, _ := DetectOffset(nextPos, n, g);
      TreesApart(g, rows, n, target, nextPos);
      if subtree != subtree1 {
        continue;
      }
      if IsAncestor(Parent(rows, target), nextPos, rows) {
        nextPos := CalcNextPosition(nextPos, target, rows).GetOr(0);
      }
    }
    if Pending(g, blockTargets, pos, |blockTargets|, nextPos) {
      PendingEnd(g, blockTargets, pos, nextPos);
    }
  }

  lemma {:induction false} PendingRoot(g: Layout, n: nat, ds: seq<nat>, from: nat, i: nat, p: nat, row: nat)
    requires LayoutFor(g, TreeRows(n), n) && Pending(g, ds, from, i, p) && IsRootPositionOnRow(p, n, row)
    ensures p == MoveAll(g, ds, from) && g.IsRoot(p)
  {
    hide LayoutFor, Separate, Row, Offset, MoveAll;
    ClearNode(g, ds[i..], p);
    RootByTest(g, n, p, row);
    RootStays(g, ds[i..], p);
  }

  /** Only a root passes the test for roots, whatever the row. */
  lemma {:induction false} RootByTest(g: Layout, n: nat, p: nat, row: nat)
    requires LayoutFor(g, TreeRows(n), n) && p in g.nodes && IsRootPositionOnRow(p, n, row)
    ensures g.IsRoot(p)
  {
    hide LayoutFor, Row, Offset, IsRoot, Pow2, Start;
    LayoutFits(g, TreeRows(n), n);
    RootHere(TreeRows(n), n, row);
    LayoutAt(g, TreeRows(n), n, p);
  }

  lemma {:induction false} RootHere(rows: nat, n: nat, row: nat)
    requires n <= Pow2(rows) && row <= rows && RootExistsOnRow(n, row)
    ensures IsRoot(rows, n, RootPosition(n, row, rows))
  {
    var k := Shr(n, row);
    ShrBound(n, rows, row);
    PowStep(rows + 1 - row);
    RowUnique(rows, RootPosition(n, row, rows), row);
    RootIff(rows, n, RootPosition(n, row, rows));
  }

  /** The list after some of its entries were moved. */
  ghost function MovedList(g: Layout, ds: seq<nat>, slice: seq<Entry>, i: nat): seq<Entry>
    requires i <= |slice|
  {
    if i == 0 then []
    else
      var init := MovedList(g, ds, slice, i - 1);
      if slice[i - 1].hash == Empty then init else init + [MovedEntry(g, ds, slice[i - 1])]
  }

  lemma {:induction false} MovedListFacts(g: Layout, ds: seq<nat>, slice: seq<Entry>, i: nat, appendRoots: bool)
    requires i <= |slice| && Movable(g, ds, slice, appendRoots)
    ensures forall e :: e in MovedList(g, ds, slice, i) <==>
              exists x :: 0 <= x < i && slice[x].hash != Empty && e == MovedEntry(g, ds, slice[x])
    ensures Distinct(MovedList(g, ds, slice, i))
  {
    if i > 0 {
      MovedListFacts(g, ds, slice, i - 1, appendRoots);
      var init, last := MovedList(g, ds, slice, i - 1), slice[i - 1];
      if last.hash != Empty {
        forall j | 0 <= j < |init|
          ensures init[j].pos != MovedEntry(g, ds, last).pos
        {
          assert init[j] in init;
        }
        forall e
          ensures e in MovedList(g, ds, slice, i) <==>
                  exists x :: 0 <= x < i && slice[x].hash != Empty && e == MovedEntry(g, ds, slice[x])
        {
          assert e in MovedList(g, ds, slice, i) <==> e in init || e == MovedEntry(g, ds, last);
        }
      }
    }
  }

  /** Every entry with a hash at its new position, in ascending order. */
  method GetNewPositions(blockTargets: seq<nat>, slice: seq<Entry>, n: nat, appendRoots: bool, ghost g: Layout)
    returns (newSlice: seq<Entry>)
    requires LayoutFor(g, TreeRows(n), n) && Movable(g, blockTargets, slice, appendRoots)
    ensures Sorted(newSlice)
    ensures forall e :: e in newSlice <==>
              exists x :: x in slice && x.hash != Empty && e == MovedEntry(g, blockTargets, x)
  {
    hide LayoutFor, Separate, Clear, MoveAll, IsRootPositionOnRow, Layout.IsRoot, Distinct, SortEntries;
    var totalRows := TreeRows(n);
    LayoutFits(g, totalRows, n);
    newSlice := [];
    var row: nat := 0;
    for i := 0 to |slice|
      invariant row <= totalRows
      invariant newSlice == MovedList(g, blockTargets, slice, i)
    {
      var pos, hash := slice[i].pos, slice[i].hash;
      if hash == Empty {
        continue;
      }
      assert slice[i] in slice;
      ClearNode(g, blockTargets, pos);
      g.NodeBound(pos);
      row := PossibleRow(pos, row, totalRows);
      var nextPos := MovePosition(pos, row, blockTargets, n, g);
      if appendRoots {
        newSlice := newSlice + [Entry(nextPos, hash)];
      } else {
        NotRootByTest(g, n, blockTargets, pos, nextPos, row);
        if !IsRootPositionOnRow(nextPos, n, row) {
          newSlice := newSlice + [Entry(nextPos, hash)];
        }
      }
    }
    MovedMembers(g, blockTargets, slice, appendRoots);
    SortFacts(newSlice);
    newSlice := SortEntries(newSlice);
  }

  lemma {:induction false} NotRootByTest(g: Layout, n: nat, ds: seq<nat>, p: nat, q: nat, row: nat)
    requires LayoutFor(g, TreeRows(n), n) && Separate(g, ds) && Clear(g, ds, p) && q == MoveAll(g, ds, p) &&
             !g.IsRoot(q)
    ensures !IsRootPositionOnRow(q, n, row)
  {
    hide LayoutFor, MoveAll, IsRootPositionOnRow, Layout.WellShaped, Lifted;
    if IsRootPositionOnRow(q, n, row) {
      OneAtATime(g, ds, p);
      LiftedNode(g, Elems(ds), p);
      RootByTest(g, n, q, row);
    }
  }

  lemma {:induction false} LiftedNode(g: Layout, ds: set<nat>, p: nat)
    requires g.WellShaped() && p in g.nodes
    ensures Lifted(g, ds, p) in g.nodes && Lifted(g, ds, p) >= p
    decreases 2 * g.m - p
  {
    if !g.IsRoot(p) {
      g.NonRootFacts(p);
      LiftedNode(g, ds, g.Up(p));
      g.ChildFacts(Lifted(g, ds, g.Up(p)));
    }
  }

  lemma {:induction false} MovedMembers(g: Layout, ds: seq<nat>, slice: seq<Entry>, appendRoots: bool)
    requires Movable(g, ds, slice, appendRoots)
    ensures Distinct(MovedList(g, ds, slice, |slice|))
    ensures forall e :: e in MovedList(g, ds, slice, |slice|) <==>
              exists x :: x in slice && x.hash != Empty && e == MovedEntry(g, ds, x)
  {
    hide MoveAll, MovedEntry, MovedList;
    MovedListFacts(g, ds, slice, |slice|, appendRoots);
    forall e
      ensures e in MovedList(g, ds, slice, |slice|) <==>
              exists x :: x in slice && x.hash != Empty && e == MovedEntry(g, ds, x)
    {
      if e in MovedList(g, ds, slice, |slice|) {
        var i :| 0 <= i < |slice| && slice[i].hash != Empty && e == MovedEntry(g, ds, slice[i]);
        assert slice[i] in slice;
      }
    }
  }

  /** Move on while the position is beyond the end the row would have in a full forest. */
  method PossibleRow(pos: nat, from: nat, rows: nat) returns (row: nat)
    requires Valid(rows, pos) && from <= rows
    ensures from <= row <= rows
  {
    hide Pow2;
    row := from;
    while row <= rows && pos > MaxPossiblePosAtRow(row, rows)
      invariant from <= row <= rows
    {
      LastRow(rows, pos, row);
      row := row + 1;
    }
  }

  lemma LastRow(rows: nat, pos: nat, row: nat)
    requires Valid(rows, pos) && row <= rows && pos > MaxPossiblePosAtRow(row, rows)
    ensures row < rows
  {
    if row == rows { StartEven(rows, rows); }
  }
}
