/** Which positions a proof must supply. */
module ProofPositions {
  import opened Hashes
  import opened Options
  import opened Positions
  import opened Geometry
  import opened Layouts
  import opened Shape
  import opened Entries
  import opened Streaming
  import opened Passes
  import opened Calculation
  import opened Sequential
  import opened Uniqueness

  /** A target is at or below a position. */
  ghost predicate OverTarget(g: Layout, targets: seq<nat>, p: nat) {
    exists c :: c in targets && AtOrAbove(g, p, c)
  }

  /** Positions beside nodes on the way up from the targets. */
  ghost predicate BesideTargets(g: Layout, targets: seq<nat>, s: seq<nat>) {
    forall i :: 0 <= i < |s| ==> s[i] in g.nodes && !g.IsRoot(s[i]) && OverTarget(g, targets, Sibling(s[i]))
  }

  /** The state of the pass for any targets in the forest. */
  ghost predicate Walking(g: Layout, targets: seq<nat>, next: seq<nat>, i: nat, j: nat, last: nat) {
    && g.WellShaped() && Queues(g, Plain(targets), Plain(next), i, j, last)
    && (forall x :: 0 <= x < |next| ==> OverTarget(g, targets, next[x]))
  }

  /** What is left to do. */
  ghost function Ahead(g: Layout, targets: seq<nat>, next: seq<nat>, i: nat, j: nat): nat
    requires i <= |targets| && j <= |next|
  {
    Left(g, Plain(targets), Plain(next), i, j)
  }

  lemma {:induction false} WalkStart(g: Layout, rows: nat, n: nat, targets: seq<nat>)
    requires LayoutFor(g, rows, n) && InOrder(targets) && forall p :: p in targets ==> p in g.nodes
    ensures n <= Pow2(rows) && Walking(g, targets, [], 0, 0, 0)
  {
    hide LayoutFor;
    LayoutFits(g, rows, n);
    PlainFacts(targets);
    assert Plain([]) == [];
    var z := Plain(targets);
    assert forall x :: 0 <= x < |targets| ==> targets[x] in targets;
  }

  lemma {:induction false} PlainMore(s: seq<nat>, p: nat)
    ensures Plain(s + [p]) == Plain(s) + [Entry(p, Empty)]
  {
  }

  /** One step of the walk. */
  lemma {:induction false} WalkStep(g: Layout, targets: seq<nat>, next: seq<nat>, i: nat, j: nat, last: nat, nx: Next)
    requires Walking(g, targets, next, i, j, last) && i <= |targets| && j <= |next|
    requires nx == GetNextPos(targets, next, i, j) && nx.idx != -1
    ensures nx.pos in g.nodes && last <= nx.pos
    ensures var i1, j1 := Advance(nx, 0, i), Advance(nx, 1, j);
            && i1 <= |targets| && j1 <= |next|
            && if g.IsRoot(nx.pos) then
                 && nx.sibIdx == -1 && Walking(g, targets, next, i1, j1, nx.pos) &&
                    Ahead(g, targets, next, i1, j1) < Ahead(g, targets, next, i, j)
               else
                 && Sibling(nx.pos) in g.nodes && !g.IsRoot(Sibling(nx.pos)) &&
                    OverTarget(g, targets, Sibling(Sibling(nx.pos)))
                 && Walking(g, targets, next + [g.Up(nx.pos)], i1, j1, nx.pos)
                 && Ahead(g, targets, next + [g.Up(nx.pos)], i1, j1) < Ahead(g, targets, next, i, j)
  {
    hide Layout.WellShaped, Queues, Weight, Pass, GetNextPos, Layout.IsRoot, Plain, OverTarget, Tail, Take;
    PlainFacts(targets);
    PlainFacts(next);
    SameLength(targets);
    SameLength(next);
    var a, b := Plain(targets), Plain(next);
    QueueStep(g, a, b, i, j, last, nx, Empty);
    TailsIn(g, a, b, i, j, last);
    TakeTails(a, b, i, j, nx);
    RunStep(g, Tail(a, i), Tail(b, j), [Empty], NextHash);
    OverNext(g, targets, next, i, j, nx);
    if !g.IsRoot(nx.pos) {
      g.NonRootFacts(nx.pos);
      PlainMore(next, g.Up(nx.pos));
      ParentOver(g, targets, nx.pos);
      WeightOfMore(g, a, b, i, j, nx);
    }
  }

  lemma SameLength(s: seq<nat>)
    ensures |Plain(s)| == |s|
  {
  }

  lemma {:induction false} TailsIn(g: Layout, a: seq<Entry>, b: seq<Entry>, i: nat, j: nat, last: nat)
    requires Queues(g, a, b, i, j, last)
    ensures i <= |a| && j <= |b| && InNodes(g, Tail(a, i)) && InNodes(g, Tail(b, j))
  {
  }

  lemma {:induction false} OverNext(g: Layout, targets: seq<nat>, next: seq<nat>, i: nat, j: nat, nx: Next)
    requires forall x :: 0 <= x < |next| ==> OverTarget(g, targets, next[x])
    requires nx == GetNextPos(targets, next, i, j) && nx.idx != -1
    ensures OverTarget(g, targets, nx.pos)
  {
    if nx.idx == 0 { assert targets[i] in targets && AtOrAbove(g, nx.pos, targets[i]); }
  }

  lemma {:induction false} ParentOver(g: Layout, targets: seq<nat>, p: nat)
    requires g.WellShaped() && p in g.nodes && !g.IsRoot(p) && OverTarget(g, targets, p)
    ensures OverTarget(g, targets, g.Up(p)) && Sibling(Sibling(p)) == p
  {
    hide Layout.WellShaped, Above;
    g.NonRootFacts(p);
    g.NodeBound(p);
    var c :| c in targets && AtOrAbove(g, p, c);
    AboveOf(g, g.Up(p), p, c);
  }

  /** Replacing a position by its parent leaves less to do. */
  lemma {:induction false} WeightOfMore(g: Layout, a: seq<Entry>, b: seq<Entry>, i: nat, j: nat, nx: Next)
    requires g.WellShaped() && i <= |a| && j <= |b| && nx == GetNextPos(PositionsOf(a), PositionsOf(b), i, j) &&
             nx.idx != -1
    requires InNodes(g, Tail(a, i)) && InNodes(g, Tail(b, j)) && nx.pos in g.nodes && !g.IsRoot(nx.pos)
    ensures var i1, j1 := Advance(nx, 0, i), Advance(nx, 1, j);
            && i1 <= |a| && j1 <= |b| && Left(g, a, b + [Entry(g.Up(nx.pos), Empty)], i1, j1) < Left(g, a, b, i, j)
  {
    hide Layout.WellShaped, Weight, Pass, GetNextPos, Layout.IsRoot, Tail, Take;
    TakeTails(a, b, i, j, nx);
    RunStep(g, Tail(a, i), Tail(b, j), [Empty], NextHash);
    var j1, t := Advance(nx, 1, j), Take(Tail(a, i), Tail(b, j));
    TailMore(b, j1, Entry(g.Up(nx.pos), Empty));
    var y := if t.sibling.Some? then t.sibling.value.value else Empty;
    WeightMore(g, t.b, Item(g.Up(nx.pos), NextHash(nx.pos, t.first.value, y)));
    WeightMore(g, t.b, Item(g.Up(nx.pos), Empty));
  }

  /** When the targets differ and none is above another, the walk follows the plan. */
  ghost predicate OnPlan(g: Layout, targets: seq<nat>, next: seq<nat>, i: nat, j: nat, k: nat, proof: seq<nat>) {
    Ascending(targets) && ValidTargets(g, Elems(targets)) ==>
      AtPair(g, targets, next, i, j, k) && proof == PlanUpTo(g, Elems(targets), k).proof
  }

  lemma {:induction false} PlanStart(g: Layout, rows: nat, n: nat, targets: seq<nat>)
    requires LayoutFor(g, rows, n)
    ensures OnPlan(g, targets, [], 0, 0, 0, [])
  {
    hide LayoutFor, ValidTargets, AtPair, PlanUpTo;
    if Ascending(targets) && ValidTargets(g, Elems(targets)) { PassStart(g, rows, n, targets); }
  }

  lemma {:induction false} PlanNext(g: Layout, targets: seq<nat>, next: seq<nat>, i: nat, j: nat, k: nat,
                                    proof: seq<nat>, nx: Next)
    requires OnPlan(g, targets, next, i, j, k, proof) && nx == GetNextPos(targets, next, i, j) && nx.idx != -1
    ensures var i1, j1, k1 := Advance(nx, 0, i), Advance(nx, 1, j), nx.pos / 2 + 1;
            if g.IsRoot(nx.pos) then OnPlan(g, targets, next, i1, j1, k1, proof)
            else OnPlan(g, targets, next + [g.Up(nx.pos)], i1, j1, k1,
                        if nx.sibIdx == -1 then proof + [Sibling(nx.pos)] else proof)
  {
    hide ValidTargets, AtPair, PlanUpTo, Touched, GetNextPos, Layout.IsRoot;
    if Ascending(targets) && ValidTargets(g, Elems(targets)) { Streaming.PassStep(g, targets, next, i, j, k, nx); }
  }

  lemma {:induction false} PlanEnd(g: Layout, targets: seq<nat>, next: seq<nat>, i: nat, j: nat, k: nat,
                                   proof: seq<nat>)
    requires OnPlan(g, targets, next, i, j, k, proof) && GetNextPos(targets, next, i, j).idx == -1
    ensures Ascending(targets) && ValidTargets(g, Elems(targets)) ==>
              proof == PlanFor(g, Elems(targets)).proof && next == PlanFor(g, Elems(targets)).computed
  {
    hide ValidTargets, AtPair, PlanUpTo, GetNextPos;
    if Ascending(targets) && ValidTargets(g, Elems(targets)) { PassDone(g, targets, next, i, j, k); }
  }

  /** The positions a proof for sorted targets must supply, and those that can be
      computed from it. */
  method ProofPositions(targets: seq<nat>, n: nat, rows: nat, ghost g: Layout)
    returns (proof: seq<nat>, next: seq<nat>)
    requires LayoutFor(g, rows, n) && InOrder(targets) && forall p :: p in targets ==> p in g.nodes
    ensures Ascending(targets) && ValidTargets(g, Elems(targets)) ==>
              proof == PlanFor(g, Elems(targets)).proof && next == PlanFor(g, Elems(targets)).computed
    ensures BesideTargets(g, targets, proof)
  {
    hide PlanUpTo, PlanFor, OnPlan, Walking, Ahead, Touched, LayoutFor, ValidTargets, InForest, IsRoot, OverTarget,
         Layout.IsRoot, Layout.WellShaped;
    hide GetNextPos;
    WalkStart(g, rows, n, targets);
    PlanStart(g, rows, n, targets);
    LayoutFits(g, rows, n);
    proof, next := [], [];
    var i: nat, j: nat, row: nat := 0, 0, 0;
    ghost var k: nat, last: nat := 0, 0;
    while row <= rows
      invariant i <= |targets| && j <= |next| && Walking(g, targets, next, i, j, last) &&
                OnPlan(g, targets, next, i, j, k, proof)
      invariant BesideTargets(g, targets, proof)
      invariant row <= rows && RowReached(rows, row, last, last)
      decreases Ahead(g, targets, next, i, j)
    {
      var nx := GetNextPos(targets, next, i, j);
      if nx.idx == -1 {
        PlanEnd(g, targets, next, i, j, k, proof);
        break;
      }
      WalkStep(g, targets, next, i, j, last, nx);
      PlanNext(g, targets, next, i, j, k, proof, nx);
      var target := nx.pos;
      if nx.idx == 0 { i := i + 1; } else { j := j + 1; }

      LayoutAt(g, rows, n, target);
      row := SeekPossibleRow(target, n, rows, row, last, last);
      k, last := target / 2 + 1, target;
      if IsRootPositionOnRowTotalRows(target, n, row, rows) {
        continue;
      }
      if nx.sibIdx != -1 {
        if nx.sibIdx == 0 { i := i + 1; } else { j := j + 1; }
      } else {
        proof := proof + [Sibling(target)];
      }
      next := next + [Parent(rows, target)];
    }
  }

  /** Targets that differ, none above another, are targets in order. */
  lemma {:induction false} DistinctTargets(g: Layout, targets: seq<nat>)
    requires Ascending(targets) && ValidTargets(g, Elems(targets))
    ensures InOrder(targets) && forall p :: p in targets ==> p in g.nodes
  {
    hide Touched;
    forall p | p in targets
      ensures p in g.nodes
    {
      assert p in Elems(targets);
    }
  }
}
