/** One step of moving up, by arithmetic. */
module Moving {
  import opened Options
  import opened Positions
  import opened Layouts
  import opened Sequential
  import opened Navigation

  /** What is left to do after some deletions. */
  ghost predicate Pending(g: Layout, ds: seq<nat>, from: nat, i: nat, p: nat) {
    && i <= |ds| && Separate(g, ds[i..]) && Clear(g, ds[i..], p)
    && MoveAll(g, ds[i..], p) == MoveAll(g, ds, from)
  }

  lemma PendingStart(g: Layout, ds: seq<nat>, p: nat)
    requires Separate(g, ds) && Clear(g, ds, p)
    ensures Pending(g, ds, p, 0, p)
  {
    assert ds[0..] == ds;
  }

  lemma PendingEnd(g: Layout, ds: seq<nat>, from: nat, p: nat)
    requires Pending(g, ds, from, |ds|, p)
    ensures p == MoveAll(g, ds, from)
  {
  }

  /** A position without any deletion above it that still matters is where it will be. */
  lemma {:induction false} PendingNext(g: Layout, ds: seq<nat>, from: nat, i: nat, p: nat)
    requires Pending(g, ds, from, i, p) && i < |ds|
    ensures Pending(g, ds, from, i + 1, Move(g, ds[i], p))
  {
    hide Separate, Clear, Move;
    var tail := ds[i..];
    assert tail == [ds[i]] + ds[i + 1..] && tail[1..] == ds[i + 1..] && tail[0] == ds[i];
    LiftedStep(g, ds[i], ds[i + 1..], p);
    SeparateRest(g, tail);
  }

  /** The arithmetic makes the move. */
  lemma {:induction false} MoveByArithmetic(g: Layout, rows: nat, ds: seq<nat>, from: nat, i: nat, p: nat)
    requires g.m == Pow2(rows) && Pending(g, ds, from, i, p) && i < |ds|
    ensures Valid(rows, p) && Valid(rows, ds[i])
    ensures !g.IsRoot(ds[i]) ==>
              if IsAncestor(Parent(rows, ds[i]), p, rows) then
                CalcNextPosition(p, ds[i], rows) == Some(Move(g, ds[i], p))
              else Move(g, ds[i], p) == p
    ensures g.IsRoot(ds[i]) ==> Move(g, ds[i], p) == p
    ensures p in g.nodes && ds[i] in g.nodes && !AtOrAbove(g, ds[i], p) && g.WellShaped()
  {
    hide Above, Shift, Layout.WellShaped, Row, IsAncestor, CalcNextPosition, Pow2;
    var d := ds[i];
    assert ds[i..][0] == d;
    SeparateHead(g, d, ds[i..][1..], p) by { assert [d] + ds[i..][1..] == ds[i..]; }
    g.NodeBound(d);
    g.NodeBound(p);
    if !g.IsRoot(d) {
      g.NonRootFacts(d);
      AncestorAbove(g, rows, g.Up(d), p);
      if Above(g, g.Up(d), p) {
        BelowChild(g, g.Up(d), p);
        NextIsShift(g, rows, d, p);
      }
    }
  }
}
