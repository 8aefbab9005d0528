/** What a proof consists of, without an algorithm. */
module Shape {
  // A node is *touched* when a target is at or below it. To hash from the targets up to the roots one
  // needs the untouched sibling of every touched node that is not a root, and one computes the parent of
  // every touched node that is not a root. All lists are in ascending order of position; they are built
  // here by a single pass over all pairs of siblings.

  import opened Positions
  import opened Layouts

  /** Whether a target is at or below `p`. */
  ghost predicate Touched(g: Layout, targets: set<nat>, p: nat)
    decreases p
  {
    p in g.nodes && p < 2 * g.m - 1 &&
    (p in targets || TouchedBelow(g, targets, p))
  }

  /** Whether a target is below `p`. */
  ghost predicate TouchedBelow(g: Layout, targets: set<nat>, p: nat)
    decreases p, 0
  {
    p in g.nodes && g.m <= p < 2 * g.m - 1 &&
    (Touched(g, targets, g.Left(p)) || Touched(g, targets, g.Right(p)))
  }

  /** Targets are nodes of the forest, and none is above another. */
  ghost predicate ValidTargets(g: Layout, targets: set<nat>) {
    g.WellShaped() && targets <= g.nodes &&
    forall t :: t in targets ==> !TouchedBelow(g, targets, t)
  }

  /** Positions a proof must supply: untouched, with a touched sibling. */
  ghost predicate IsProofPos(g: Layout, targets: set<nat>, p: nat) {
    p in g.nodes && !g.IsRoot(p) && !Touched(g, targets, p) && Touched(g, targets, Sibling(p))
  }

  ghost predicate IsTouchedRoot(g: Layout, targets: set<nat>, p: nat) {
    g.IsRoot(p) && Touched(g, targets, p)
  }

  /** `proof`: positions whose hashes a proof must supply.  `computed`: positions
      whose hashes can be computed from the targets and the proof.  `roots`: the
      roots above the targets. */
  datatype Plan = Plan(proof: seq<nat>, computed: seq<nat>, roots: seq<nat>)

  ghost function PairPlan(g: Layout, targets: set<nat>, left: nat): Plan {
    var l, r := Touched(g, targets, left), Touched(g, targets, left + 1);
    if !l && !r then Plan([], [], [])
    else if g.IsRoot(left) then Plan([], [], [left])
    else Plan(if l && r then [] else if l then [left + 1] else [left], [g.Up(left)], [])
  }

  /** The plan for the first `k` pairs of siblings. */
  ghost function PlanUpTo(g: Layout, targets: set<nat>, k: nat): Plan {
    if k == 0 then Plan([], [], [])
    else
      var before, pair := PlanUpTo(g, targets, k - 1), PairPlan(g, targets, 2 * (k - 1));
      Plan(before.proof + pair.proof, before.computed + pair.computed, before.roots + pair.roots)
  }

  /** The plan for the whole forest. */
  ghost function PlanFor(g: Layout, targets: set<nat>): Plan {
    PlanUpTo(g, targets, g.m)
  }

  /** The parent of a touched node that is not a root is touched. */
  lemma {:induction false} TouchedParent(g: Layout, targets: set<nat>, p: nat)
    requires g.WellShaped() && Touched(g, targets, p) && !g.IsRoot(p)
    ensures TouchedBelow(g, targets, g.Up(p))
  {
    g.NonRootFacts(p);
  }

  /** The pass over the pairs finds exactly the positions meant, in ascending order. */
  lemma {:induction false} PlanMeaning(g: Layout, targets: set<nat>, k: nat)
    requires g.WellShaped()
    ensures forall p: nat :: p in PlanUpTo(g, targets, k).proof <==> p < 2 * k && IsProofPos(g, targets, p)
    ensures forall p: nat :: p in PlanUpTo(g, targets, k).computed <==>
                             TouchedBelow(g, targets, p) && g.Left(p) < 2 * k
    ensures forall p: nat :: p in PlanUpTo(g, targets, k).roots <==> p < 2 * k && IsTouchedRoot(g, targets, p)
  {
    if k > 0 {
      PlanMeaning(g, targets, k - 1);
      PairMeaning(g, targets, 2 * (k - 1));
    }
  }

  lemma {:induction false} PairMeaning(g: Layout, targets: set<nat>, left: nat)
    requires g.WellShaped() && left % 2 == 0
    ensures forall p: nat :: p in PairPlan(g, targets, left).proof <==>
                             left <= p < left + 2 && IsProofPos(g, targets, p)
    ensures forall p: nat :: p in PairPlan(g, targets, left).computed <==>
                             TouchedBelow(g, targets, p) && g.Left(p) == left
    ensures forall p: nat :: p in PairPlan(g, targets, left).roots <==>
                             left <= p < left + 2 && IsTouchedRoot(g, targets, p)
  {
    if g.IsRoot(left) {
      g.RootFacts(left);
    } else if left in g.nodes {
      g.NonRootFacts(left);
    }
    if left + 1 in g.nodes && !g.IsRoot(left + 1) {
      g.NonRootFacts(left + 1);
    }
    if g.IsRoot(left + 1) {
      g.RootFacts(left + 1);
    }
    forall p: nat | TouchedBelow(g, targets, p) && g.Left(p) == left
      ensures p == g.Up(left) && !g.IsRoot(left)
    {
      g.ChildFacts(p);
    }
  }

  lemma {:induction false} PlanAscending(g: Layout, targets: set<nat>, k: nat)
    requires g.WellShaped()
    ensures var plan := PlanUpTo(g, targets, k);
            Ascending(plan.proof) && Ascending(plan.computed) && Ascending(plan.roots)
  {
    if k > 0 {
      PlanAscending(g, targets, k - 1);
      PlanMeaning(g, targets, k - 1);
      var before, pair := PlanUpTo(g, targets, k - 1), PairPlan(g, targets, 2 * (k - 1));
      PairMeaning(g, targets, 2 * (k - 1));
      AscendingAppend(before.proof, pair.proof);
      AscendingAppend(before.computed, pair.computed);
      AscendingAppend(before.roots, pair.roots);
    }
  }

  lemma AscendingAppend(a: seq<nat>, b: seq<nat>)
    requires Ascending(a) && |b| <= 1
    requires forall x, y :: x in a && y in b ==> x < y
    ensures Ascending(a + b)
  {
    forall i | 0 <= i < |a| && |b| == 1
      ensures a[i] < b[0]
    {
      assert a[i] in a && b[0] in b;
    }
  }

  /** Nothing between `2 * k` and the least pending position is touched: every
      touched position is a target or above a touched pair. */
  lemma {:induction false} GapUntouched(g: Layout, targets: set<nat>, k: nat, least: nat, p: nat)
    requires g.WellShaped()
    requires forall t :: t in targets && t >= 2 * k ==> t >= least
    requires forall q :: q in PlanUpTo(g, targets, k).computed && q >= 2 * k ==> q >= least
    requires 2 * k <= p < least
    ensures !Touched(g, targets, p)
    decreases p
  {
    if TouchedBelow(g, targets, p) {
      PlanMeaning(g, targets, k);
      g.ChildFacts(p);
      if g.Left(p) >= 2 * k {
        GapUntouched(g, targets, k, least, g.Left(p));
        GapUntouched(g, targets, k, least, g.Right(p));
      }
    }
  }

  /** Pairs that are not touched add nothing to the plan. */
  lemma {:induction false} PlanSkip(g: Layout, targets: set<nat>, k: nat, j: nat)
    requires k <= j
    requires forall p :: 2 * k <= p < 2 * j ==> !Touched(g, targets, p)
    ensures PlanUpTo(g, targets, j) == PlanUpTo(g, targets, k)
    decreases j
  {
    if k < j {
      PlanSkip(g, targets, k, j - 1);
    }
  }

  /** What is touched by one of two sets of targets is touched by their union, and nothing
      else is. */
  lemma {:induction false} TouchedUnion(g: Layout, a: set<nat>, b: set<nat>, p: nat)
    ensures Touched(g, a + b, p) <==> Touched(g, a, p) || Touched(g, b, p)
    ensures TouchedBelow(g, a + b, p) <==> TouchedBelow(g, a, p) || TouchedBelow(g, b, p)
    decreases p
  {
    if p in g.nodes && g.m <= p < 2 * g.m - 1 {
      TouchedUnion(g, a, b, g.Left(p));
      TouchedUnion(g, a, b, g.Right(p));
    }
  }

  lemma ProofPosBound(g: Layout, s: set<nat>, p: nat)
    requires g.WellShaped() && IsProofPos(g, s, p)
    ensures p < 2 * g.m && p in g.nodes
  {
  }

  lemma {:induction false} NothingNeeded(g: Layout)
    requires g.WellShaped()
    ensures PlanFor(g, {}).proof == []
  {
    hide PlanUpTo, Layout.WellShaped;
    PlanMeaning(g, {}, g.m);
    if |PlanFor(g, {}).proof| > 0 {
      var p := PlanFor(g, {}).proof[0];
      assert p in PlanFor(g, {}).proof;
      NothingTouched(g, Sibling(p));
    }
  }

  lemma {:induction false} NothingTouched(g: Layout, p: nat)
    ensures !Touched(g, {}, p)
    decreases p
  {
    if p in g.nodes && g.m <= p < 2 * g.m - 1 {
      NothingTouched(g, g.Left(p));
      NothingTouched(g, g.Right(p));
    }
  }
}
