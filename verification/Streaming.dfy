/** The two-queue pass from the targets up to the roots. */
module Streaming {
  // Both `proofPositions` and `calculateHashes` walk the forest row by row with two queues, the sorted
  // targets and the parents found so far, always taking the least position next. Here the step they
  // share is proved to follow the plan of module `Shape`: with the first `k` pairs of siblings behind
  // it, the queues hold exactly the touched positions the pass still has to visit.

  import opened Positions
  import opened Geometry
  import opened Layouts
  import opened Shape
  import opened Entries

  /** Which of two queues has the lesser front; -1 when both are empty. */
  function NextLeastSlice(slice1: seq<nat>, slice2: seq<nat>, idx1: nat, idx2: nat): int {
    if |slice1| > idx1 && |slice2| > idx2 then
      if slice1[idx1] < slice2[idx2] then 0 else 1
    else if |slice1| > idx1 then 0
    else if |slice2| > idx2 then 1
    else -1
  }

  datatype Next = Next(pos: nat, idx: int, sibIdx: int)

  /** The next position, the queue it is in, and the queue its sibling is in. */
  function GetNextPos(slice1: seq<nat>, slice2: seq<nat>, idx1: nat, idx2: nat): (n: Next)
    ensures -1 <= n.idx <= 1 && -1 <= n.sibIdx <= 1
    ensures n.idx == 0 ==> idx1 < |slice1| && slice1[idx1] == n.pos
    ensures n.idx == 1 ==> idx2 < |slice2| && slice2[idx2] == n.pos
    ensures n.sibIdx == 0 ==> var i1 := if n.idx == 0 then idx1 + 1 else idx1;
                              i1 < |slice1| && slice1[i1] == RightSib(n.pos)
    ensures n.sibIdx == 1 ==> var i2 := if n.idx == 1 then idx2 + 1 else idx2;
                              i2 < |slice2| && slice2[i2] == RightSib(n.pos)
  {
    var idx := NextLeastSlice(slice1, slice2, idx1, idx2);
    if idx == -1 then Next(0, -1, -1)
    else
      var pos := if idx == 0 then slice1[idx1] else slice2[idx2];
      var i1, i2 := if idx == 0 then idx1 + 1 else idx1, if idx == 1 then idx2 + 1 else idx2;
      var sib := NextLeastSlice(slice1, slice2, i1, i2);
      if sib == 0 && RightSib(pos) != slice1[i1] then Next(pos, idx, -1)
      else if sib == 1 && RightSib(pos) != slice2[i2] then Next(pos, idx, -1)
      else Next(pos, idx, sib)
  }

  /** A queue is split by the positions visited so far. */
  ghost predicate Split(queue: seq<nat>, i: nat, visited: nat) {
    i <= |queue| && Ascending(queue) &&
    (forall x :: 0 <= x < i ==> queue[x] < visited) &&
    (forall x :: i <= x < |queue| ==> queue[x] >= visited)
  }

  /** The state of the pass after `k` pairs. */
  ghost predicate AtPair(g: Layout, targets: seq<nat>, next: seq<nat>, i: nat, j: nat, k: nat) {
    ValidTargets(g, Elems(targets)) && k <= g.m &&
    Split(targets, i, 2 * k) && Split(next, j, 2 * k) &&
    next == PlanUpTo(g, Elems(targets), k).computed
  }

  /** The pass starts with the targets pending and nothing found. */
  lemma {:induction false} PassStart(g: Layout, rows: nat, n: nat, targets: seq<nat>)
    requires LayoutFor(g, rows, n) && Ascending(targets) && ValidTargets(g, Elems(targets))
    ensures n <= Pow2(rows) && g.WellShaped()
    ensures AtPair(g, targets, [], 0, 0, 0)
    ensures PlanUpTo(g, Elems(targets), 0) == Plan([], [], [])
  {
  }

  /** With nothing pending, the plan is complete. */
  lemma {:induction false} PassDone(g: Layout, targets: seq<nat>, next: seq<nat>, i: nat, j: nat, k: nat)
    requires AtPair(g, targets, next, i, j, k)
    requires GetNextPos(targets, next, i, j).idx == -1
    ensures PlanUpTo(g, Elems(targets), k) == PlanFor(g, Elems(targets))
    ensures next == PlanFor(g, Elems(targets)).computed
  {
    var t := Elems(targets);
    forall p: nat | 2 * k <= p < 2 * g.m
      ensures !Touched(g, t, p)
    {
      GapUntouched(g, t, k, 2 * g.m, p);
    }
    PlanSkip(g, t, k, g.m);
  }

  /** What waits in a queue from an index on, and what waits in two queues. */
  ghost predicate InTail(queue: seq<nat>, i: nat, p: nat) {
    exists x :: i <= x < |queue| && queue[x] == p
  }

  ghost predicate Waits(slice1: seq<nat>, slice2: seq<nat>, i: nat, j: nat, p: nat) {
    InTail(slice1, i, p) || InTail(slice2, j, p)
  }

  lemma TailLeast(queue: seq<nat>, i: nat, x: nat)
    requires Ascending(queue)
    ensures i < |queue| ==> InTail(queue, i, queue[i])
    ensures InTail(queue, i + 1, x) ==> InTail(queue, i, x) && queue[i] < x
    ensures InTail(queue, i, x) ==> i < |queue| && queue[i] <= x && (queue[i] == x || InTail(queue, i + 1, x))
  {
  }

  ghost predicate Disjoint(slice1: seq<nat>, slice2: seq<nat>) {
    forall x, y :: 0 <= x < |slice1| && 0 <= y < |slice2| ==> slice1[x] != slice2[y]
  }

  /** Of two ascending queues without a common element, the least element is taken,
      and its sibling is found exactly when it waits too. */
  lemma {:induction false} LeastNext(slice1: seq<nat>, slice2: seq<nat>, i: nat, j: nat)
    requires Ascending(slice1) && Ascending(slice2) && i <= |slice1| && j <= |slice2|
    requires Disjoint(slice1, slice2)
    requires GetNextPos(slice1, slice2, i, j).idx != -1
    ensures var n := GetNextPos(slice1, slice2, i, j);
            && Waits(slice1, slice2, i, j, n.pos)
            && (forall x :: Waits(slice1, slice2, i, j, x) ==> n.pos <= x)
            && (n.sibIdx != -1 <==> n.pos % 2 == 0 && Waits(slice1, slice2, i, j, n.pos + 1))
  {
    hide InTail;
    var n := GetNextPos(slice1, slice2, i, j);
    forall x | Waits(slice1, slice2, i, j, x)
      ensures n.pos <= x
    {
      TailLeast(slice1, i, x);
      TailLeast(slice2, j, x);
    }
    TailLeast(slice1, i, n.pos + 1);
    TailLeast(slice2, j, n.pos + 1);
    TailLeast(slice1, i + 1, n.pos + 1);
    TailLeast(slice2, j + 1, n.pos + 1);
  }

  /** What waits is touched and not visited. */
  lemma {:induction false} WaitsTouched(g: Layout, targets: seq<nat>, next: seq<nat>, i: nat, j: nat, k: nat, p: nat)
    requires AtPair(g, targets, next, i, j, k) && Waits(targets, next, i, j, p)
    ensures Touched(g, Elems(targets), p) && p in g.nodes && 2 * k <= p < 2 * g.m - 1
  {
    PlanMeaning(g, Elems(targets), k);
    if InTail(targets, i, p) {
      assert p in Elems(targets);
    } else {
      assert p in next;
      assert TouchedBelow(g, Elems(targets), p);
    }
  }

  /** No position waits in both queues. */
  lemma {:induction false} QueuesDisjoint(g: Layout, targets: seq<nat>, next: seq<nat>, i: nat, j: nat, k: nat)
    requires AtPair(g, targets, next, i, j, k)
    ensures Disjoint(targets, next)
  {
    PlanMeaning(g, Elems(targets), k);
    forall x, y | 0 <= x < |targets| && 0 <= y < |next|
      ensures targets[x] != next[y]
    {
      assert targets[x] in Elems(targets) && next[y] in next;
    }
  }

  /** A touched position without a touched unvisited one below it waits. */
  lemma {:induction false} Pending(g: Layout, targets: seq<nat>, next: seq<nat>, i: nat, j: nat, k: nat, p: nat)
    requires AtPair(g, targets, next, i, j, k)
    requires Touched(g, Elems(targets), p) && p >= 2 * k
    requires p >= g.m && g.Left(p) >= 2 * k ==> !TouchedBelow(g, Elems(targets), p)
    ensures Waits(targets, next, i, j, p)
  {
    PlanMeaning(g, Elems(targets), k);
    if p in Elems(targets) {
      var x :| 0 <= x < |targets| && targets[x] == p;
      assert InTail(targets, i, p);
    } else {
      var x :| 0 <= x < |next| && next[x] == p;
      assert InTail(next, j, p);
    }
  }

  /** Nothing below the position taken next is touched and unvisited. */
  lemma {:induction false} GapSkipped(g: Layout, targets: seq<nat>, next: seq<nat>, i: nat, j: nat, k: nat, pos: nat)
    requires AtPair(g, targets, next, i, j, k) && pos >= 2 * k
    requires forall x :: Waits(targets, next, i, j, x) ==> pos <= x
    ensures PlanUpTo(g, Elems(targets), pos / 2) == PlanUpTo(g, Elems(targets), k)
    ensures forall p: nat :: 2 * k <= p < pos ==> !Touched(g, Elems(targets), p)
  {
    LeastBounds(targets, next, i, j, k, pos);
    forall p: nat | 2 * k <= p < pos
      ensures !Touched(g, Elems(targets), p)
    {
      GapUntouched(g, Elems(targets), k, pos, p);
    }
    PlanSkip(g, Elems(targets), k, pos / 2);
  }

  /** The right sibling of the least waiting position waits when it is touched. */
  lemma {:induction false} SiblingWaits(g: Layout, targets: seq<nat>, next: seq<nat>, i: nat, j: nat, k: nat, pos: nat)
    requires AtPair(g, targets, next, i, j, k) && pos >= 2 * k && pos % 2 == 0
    requires forall p: nat :: 2 * k <= p < pos ==> !Touched(g, Elems(targets), p)
    ensures Touched(g, Elems(targets), pos + 1) <==> Waits(targets, next, i, j, pos + 1)
  {
    if Waits(targets, next, i, j, pos + 1) {
      WaitsTouched(g, targets, next, i, j, k, pos + 1);
    } else if Touched(g, Elems(targets), pos + 1) {
      if pos + 1 >= g.m {
        g.ChildFacts(pos + 1);
      }
      Pending(g, targets, next, i, j, k, pos + 1);
    }
  }

  /** The position taken next is the least touched one not visited, and its sibling
      is found in a queue exactly when it is touched. */
  lemma {:induction false} PassNext(g: Layout, targets: seq<nat>, next: seq<nat>, i: nat, j: nat, k: nat)
    requires AtPair(g, targets, next, i, j, k)
    requires GetNextPos(targets, next, i, j).idx != -1
    ensures var t, n := Elems(targets), GetNextPos(targets, next, i, j);
            && Touched(g, t, n.pos) && n.pos in g.nodes
            && k <= n.pos / 2 < g.m
            && PlanUpTo(g, t, n.pos / 2) == PlanUpTo(g, t, k)
            && (n.sibIdx != -1 <==> Touched(g, t, Sibling(n.pos)))
            && (n.sibIdx != -1 ==> n.pos % 2 == 0)
  {
    hide PlanUpTo, Touched, GetNextPos;
    var pos := GetNextPos(targets, next, i, j).pos;
    QueuesDisjoint(g, targets, next, i, j, k);
    LeastNext(targets, next, i, j);
    WaitsTouched(g, targets, next, i, j, k, pos);
    GapSkipped(g, targets, next, i, j, k, pos);
    if pos % 2 == 0 {
      SiblingWaits(g, targets, next, i, j, k, pos);
    } else {
      assert 2 * k <= Sibling(pos) < pos;
    }
  }

  lemma LeastBounds(targets: seq<nat>, next: seq<nat>, i: nat, j: nat, k: nat, least: nat)
    requires Split(targets, i, 2 * k) && Split(next, j, 2 * k)
    requires forall x :: Waits(targets, next, i, j, x) ==> least <= x
    ensures forall t :: t in Elems(targets) && t >= 2 * k ==> t >= least
    ensures forall q :: q in next && q >= 2 * k ==> q >= least
  {
    forall t | t in Elems(targets) && t >= 2 * k
      ensures t >= least
    {
      var x :| 0 <= x < |targets| && targets[x] == t;
      assert Waits(targets, next, i, j, t);
    }
    forall t | t in next && t >= 2 * k
      ensures t >= least
    {
      var x :| 0 <= x < |next| && next[x] == t;
      assert Waits(targets, next, i, j, t);
    }
  }

  /** How far one step moves in a queue: past the position taken, and past its sibling. */
  function Advance(n: Next, queue: int, i: nat): nat {
    i + (if n.idx == queue then 1 else 0) + (if n.sibIdx == queue then 1 else 0)
  }

  lemma {:induction false} LeastSplit(slice1: seq<nat>, slice2: seq<nat>, i: nat, j: nat, visited: nat)
    requires Split(slice1, i, visited) && Split(slice2, j, visited)
    requires Disjoint(slice1, slice2)
    requires GetNextPos(slice1, slice2, i, j).idx != -1
    ensures var n := GetNextPos(slice1, slice2, i, j);
            && Split(slice1, Advance(n, 0, i), RightSib(n.pos) + 1)
            && Split(slice2, Advance(n, 1, j), RightSib(n.pos) + 1)
  {
    var n := GetNextPos(slice1, slice2, i, j);
    SplitFrom(slice1, i, visited, Advance(n, 0, i), RightSib(n.pos) + 1);
    SplitFrom(slice2, j, visited, Advance(n, 1, j), RightSib(n.pos) + 1);
  }

  lemma SplitFrom(queue: seq<nat>, i: nat, visited: nat, i1: nat, visited1: nat)
    requires Split(queue, i, visited) && i <= i1 <= |queue| && visited <= visited1
    requires i < i1 ==> queue[i1 - 1] < visited1
    requires i1 < |queue| ==> visited1 <= queue[i1]
    ensures Split(queue, i1, visited1)
  {
  }

  /** What the plan has for the pair of a touched position. */
  lemma {:induction false} PlanStep(g: Layout, t: set<nat>, k: nat, pos: nat)
    requires g.WellShaped() && Touched(g, t, pos)
    requires PlanUpTo(g, t, pos / 2) == PlanUpTo(g, t, k)
    requires pos % 2 == 1 ==> !Touched(g, t, pos - 1)
    ensures var before, after := PlanUpTo(g, t, k), PlanUpTo(g, t, pos / 2 + 1);
            if g.IsRoot(pos) then
              !Touched(g, t, Sibling(pos)) && after == before.(roots := before.roots + [pos])
            else
              after == before.(computed := before.computed + [g.Up(pos)],
                               proof := before.proof + if Touched(g, t, Sibling(pos)) then [] else [Sibling(pos)])
  {
    var left := 2 * (pos / 2);
    var before := PlanUpTo(g, t, k);
    if g.IsRoot(pos) {
      g.RootFacts(pos);
    } else {
      g.NonRootFacts(pos);
      assert !g.IsRoot(left) && g.Up(left) == g.Up(pos);
    }
  }

  /** The state after one step, with the lists the plan has for the pair. */
  ghost predicate Stepped(g: Layout, targets: seq<nat>, next: seq<nat>, k: nat, n: Next, i: nat, j: nat) {
    var t := Elems(targets);
    var before, after := PlanUpTo(g, t, k), PlanUpTo(g, t, n.pos / 2 + 1);
    && Touched(g, t, n.pos) && n.pos in g.nodes && k <= n.pos / 2 < g.m
    && (n.sibIdx != -1 <==> Touched(g, t, Sibling(n.pos)))
    && (n.sibIdx != -1 ==> RightSib(n.pos) == Sibling(n.pos))
    && if g.IsRoot(n.pos) then
         && n.sibIdx == -1
         && after == before.(roots := before.roots + [n.pos])
         && AtPair(g, targets, next, i, j, n.pos / 2 + 1)
       else
         && after == before.(computed := next + [g.Up(n.pos)],
                             proof := before.proof + if n.sibIdx == -1 then [Sibling(n.pos)] else [])
         && AtPair(g, targets, next + [g.Up(n.pos)], i, j, n.pos / 2 + 1)
  }

  lemma {:induction false} StepTo(g: Layout, targets: seq<nat>, next: seq<nat>, k: nat, n: Next, i: nat, j: nat)
    requires ValidTargets(g, Elems(targets)) && next == PlanUpTo(g, Elems(targets), k).computed
    requires Touched(g, Elems(targets), n.pos) && n.pos in g.nodes && k <= n.pos / 2 < g.m
    requires PlanUpTo(g, Elems(targets), n.pos / 2) == PlanUpTo(g, Elems(targets), k)
    requires n.sibIdx != -1 <==> Touched(g, Elems(targets), Sibling(n.pos))
    requires n.sibIdx != -1 ==> n.pos % 2 == 0
    requires Split(targets, i, RightSib(n.pos) + 1) && Split(next, j, RightSib(n.pos) + 1)
    ensures Stepped(g, targets, next, k, n, i, j)
  {
    hide PlanUpTo, Touched;
    var t := Elems(targets);
    PlanStep(g, t, k, n.pos);
    PlanAscending(g, t, n.pos / 2 + 1);
    assert RightSib(n.pos) + 1 == 2 * (n.pos / 2 + 1);
    if !g.IsRoot(n.pos) {
      g.NonRootFacts(n.pos);
      assert Split(next + [g.Up(n.pos)], j, RightSib(n.pos) + 1);
    }
  }

  /** One step of the pass: it visits the pair of the position taken, and adds to
      each list what the plan has for that pair. */
  lemma {:induction false} PassStep(g: Layout, targets: seq<nat>, next: seq<nat>, i: nat, j: nat, k: nat, n: Next)
    requires AtPair(g, targets, next, i, j, k)
    requires n == GetNextPos(targets, next, i, j) && n.idx != -1
    ensures Stepped(g, targets, next, k, n, Advance(n, 0, i), Advance(n, 1, j))
  {
    PassNext(g, targets, next, i, j, k);
    QueuesDisjoint(g, targets, next, i, j, k);
    LeastSplit(targets, next, i, j, 2 * k);
    StepTo(g, targets, next, k, n, Advance(n, 0, i), Advance(n, 1, j));
  }

  /** The row the pass is on never passes a position still to be visited. */
  ghost predicate RowReached(rows: nat, row: nat, last: nat, bound: nat) {
    row == 0 || (last <= bound && Valid(rows, last) && row == Row(rows, last))
  }

  /** Move up to the row of a node, as long as the node is beyond the end the row
      would have in a full forest. */
  method SeekPossibleRow(pos: nat, n: nat, rows: nat, from: nat, ghost last: nat, ghost bound: nat) returns (row: nat)
    requires n <= Pow2(rows) && RowReached(rows, from, last, bound) && bound <= pos
    requires InForest(rows, n, pos)
    ensures Valid(rows, pos) && row == Row(rows, pos) <= rows && row <= TreeRows(n)
    ensures IsRootPositionOnRowTotalRows(pos, n, row, rows) <==> IsRoot(rows, n, pos)
  {
    RowMonotone(rows, if from == 0 then 0 else last, pos);
    row := from;
    while row <= rows && pos > MaxPossiblePosAtRow(row, rows)
      invariant row <= Row(rows, pos) <= rows
    {
      RowEnds(rows, n, pos, row);
      row := row + 1;
    }
    RowEnds(rows, n, pos, row);
    RootTest(rows, n, pos);
  }

  /** The same, with the ends the rows have for `n` leaves. */
  method SeekRow(pos: nat, n: nat, from: nat, ghost last: nat, ghost bound: nat) returns (row: nat)
    requires RowReached(TreeRows(n), from, last, bound) && bound <= pos
    requires InForest(TreeRows(n), n, pos)
    ensures Valid(TreeRows(n), pos) && row == Row(TreeRows(n), pos) <= TreeRows(n)
    ensures IsRootPositionOnRow(pos, n, row) <==> IsRoot(TreeRows(n), n, pos)
  {
    hide Row, Offset, Start, Pow2, IsRoot, IsRootPositionOnRow, MaxPositionAtRow, MaxPossiblePosAtRow, Shr;
    var rows := TreeRows(n);
    RowMonotone(rows, if from == 0 then 0 else last, pos);
    row := from;
    while pos > MaxPositionAtRow(row, rows, n)
      invariant row <= Row(rows, pos) <= rows
      decreases rows - row
    {
      RowEnds(rows, n, pos, row);
      row := row + 1;
    }
    RowEnds(rows, n, pos, row);
    RootTest(rows, n, pos);
  }
}
