/** Finding the node of a position, and the position of a node. */
module NieceNavigation {
  // A node of the pollard is given by the root it hangs below and the turns from there to it.

  import opened Hashes
  import opened Options
  import opened Positions
  import opened Geometry
  import opened Layouts
  import opened Forests
  import opened Honest
  import opened Sequential
  import opened Slots
  import opened Uniqueness
  import opened Navigation
  import opened TreeIndex
  import opened Inverse
  import opened OneDeletion
  import opened Pollards
  import opened Nieces

  lemma {:induction false} RiseMore(p: nat, h: nat, rows: nat)
    ensures ParentMany(p, h + 1, rows) == Parent(rows, ParentMany(p, h, rows))
    decreases h
  {
    if h > 0 { RiseMore(Parent(rows, p), h - 1, rows); }
  }

  /** The nodes between a position and its root. */
  lemma {:induction false} OnTheRise(g: Layout, n: nat, p: nat, h: nat)
    requires LayoutFor(g, TreeRows(n), n) && p in g.nodes && Valid(TreeRows(n), p) && Valid(TreeRows(n), RootOf(g, p))
    requires h + Row(TreeRows(n), p) <= Row(TreeRows(n), RootOf(g, p))
    ensures var q := ParentMany(p, h, TreeRows(n));
            && q in g.nodes && RootOf(g, q) == RootOf(g, p) && Valid(TreeRows(n), q) &&
               Row(TreeRows(n), q) == Row(TreeRows(n), p) + h
            && (g.IsRoot(q) <==> h + Row(TreeRows(n), p) == Row(TreeRows(n), RootOf(g, p)))
            && (!g.IsRoot(q) ==> g.Up(q) == ParentMany(p, h + 1, TreeRows(n)))
    decreases h
  {
    hide LayoutFor, Row, Layout.WellShaped, RootOf, ParentMany, TreeRows, Layout.IsRoot;
    var rows := TreeRows(n);
    LayoutFits(g, rows, n);
    RiseNone(p, rows);
    RiseMore(p, h, rows);
    if h > 0 {
      OnTheRise(g, n, p, h - 1);
      var b := ParentMany(p, h - 1, rows);
      RiseMore(p, h - 1, rows);
      g.NonRootFacts(b);
      g.NodeBound(g.Up(b));
      RootOfUp(g, b);
      NotLast(g, b);
      RowStep(rows, b);
    }
    RootByRow(g, n, ParentMany(p, h, rows));
  }

  /** A node is a root exactly when it is on the row of its root. */
  lemma {:induction false} RootByRow(g: Layout, n: nat, q: nat)
    requires LayoutFor(g, TreeRows(n), n) && q in g.nodes
    ensures Valid(TreeRows(n), q) && Valid(TreeRows(n), RootOf(g, q))
    ensures g.IsRoot(q) <==> Row(TreeRows(n), q) == Row(TreeRows(n), RootOf(g, q))
  {
    hide LayoutFor, Row, Layout.WellShaped, RootOf, TreeRows, Layout.IsRoot, Above;
    var rows := TreeRows(n);
    LayoutFits(g, rows, n);
    RootOfFacts(g, q);
    g.NodeBound(q);
    if g.IsRoot(q) {
      RootOfRoot(g, q);
    } else {
      RootRow(g, rows, n, q);
      RootOfUp(g, q);
      g.NonRootFacts(q);
      RootRow(g, rows, n, g.Up(q));
      NotLast(g, q);
      RowStep(rows, q);
    }
  }

  /** The digits from number `k - 1` down to number `h`. */
  ghost function TurnsOf(bits: int, h: int, k: int): (r: seq<int>)
    requires h >= 0
    ensures |r| == if h < k then k - h else 0
    decreases k - h
  {
    if h >= k then [] else TurnsOf(bits, h + 1, k) + [Digit(bits, h)]
  }

  /** The digits for a position are the way to it; before the last one, the ways to the nodes beside its ancestors. */
  lemma {:induction false} TurnsAreWay(g: Layout, n: nat, q: nat, bits: int, k: nat, h: nat)
    requires LayoutFor(g, TreeRows(n), n) && q in g.nodes && Valid(TreeRows(n), q) && Valid(TreeRows(n), RootOf(g, q))
    requires k + Row(TreeRows(n), q) == Row(TreeRows(n), RootOf(g, q)) && h <= k
    requires forall j: nat :: j < k ==> Digit(bits, j) == Turn(TreeRows(n), q, j)
    ensures var p := ParentMany(q, h, TreeRows(n));
            && p in g.nodes && (g.IsRoot(p) <==> h == k)
            && TurnsOf(bits, h, k) == if h == 0 then WayTo(g, p) else WayBeside(g, p)
    decreases k - h
  {
    hide LayoutFor, Row, Layout.WellShaped, RootOf, ParentMany, TreeRows, Layout.IsRoot, WayTo, WayBeside, Digit, Turn;
    LayoutFits(g, TreeRows(n), n);
    OnTheRise(g, n, q, h);
    WaySteps(g, ParentMany(q, h, TreeRows(n)));
    if h < k {
      TurnsAreWay(g, n, q, bits, k, h + 1);
      TurnIs(TreeRows(n), q, h);
    }
  }

  lemma {:induction false} FollowNothing(turns: seq<int>)
    ensures Follow(NoNode, turns) == NoNode
    decreases |turns|
  {
    if |turns| > 0 { FollowNothing(turns[..|turns| - 1]); }
  }

  /** Where the search for a position ends, if anywhere. */
  ghost function Landing(n: nat, p: nat): Option<nat> {
    var rows := TreeRows(n);
    if Valid(rows, p) && StopRow(n, FirstLeaf(rows, p), rows) >= Row(rows, p) then Some(LandsAt(rows, n, p)) else None
  }

  lemma {:induction false} LandingFacts(g: Layout, n: nat, p: nat)
    requires LayoutFor(g, TreeRows(n), n)
    ensures Landing(n, p).Some? ==> Landing(n, p).value in g.nodes
    ensures Landing(n, p) == Some(p) <==> p in g.nodes
  {
    hide LayoutFor, Row, Layout.WellShaped, RootOf, TreeRows, StopRow, FirstLeaf, LandsAt, LandsOff;
    LayoutFits(g, TreeRows(n), n);
    if p in g.nodes { g.NodeBound(p); }
    if Valid(TreeRows(n), p) { Lands(g, TreeRows(n), n, p); }
  }

  lemma {:induction false} DigitsAreTurns(bits: int, h: int, k: int)
    requires h >= 0
    ensures IsTurns(TurnsOf(bits, h, k))
    decreases k - h
  {
    if h < k { DigitsAreTurns(bits, h + 1, k); }
  }

  /** No way is longer than there are rows. */
  lemma {:induction false} WayLength(g: Layout, n: nat, p: nat)
    requires LayoutFor(g, TreeRows(n), n) && p in g.nodes
    ensures Valid(TreeRows(n), p) && Valid(TreeRows(n), RootOf(g, p))
    ensures |WayTo(g, p)| == |WayBeside(g, p)| == Row(TreeRows(n), RootOf(g, p)) - Row(TreeRows(n), p)
    decreases 2 * g.m - p
  {
    hide LayoutFor, Row, Layout.WellShaped, RootOf, TreeRows, Layout.IsRoot, WayTo, WayBeside;
    LayoutFits(g, TreeRows(n), n);
    g.NodeBound(p);
    WaySteps(g, p);
    if g.IsRoot(p) {
      RootOfRoot(g, p);
    } else {
      g.NonRootFacts(p);
      RootOfUp(g, p);
      NotLast(g, p);
      RowStep(TreeRows(n), p);
      WayLength(g, n, g.Up(p));
    }
  }

  /** No node is deeper than there are rows. */
  lemma {:induction false} NotTooDeep(g: Layout, n: nat, f: Forest, roots: seq<PolNode>, trees: seq<Tree>, k: nat,
                                      turns: seq<int>)
    requires LayoutFor(g, TreeRows(n), n) && ForestOk(g, f) && TreesOf(g, n, f, trees) && Grove(roots, trees)
    requires k < |roots| && |turns| > TreeRows(n) && IsTurns(turns)
    ensures Follow(roots[k], turns).NoNode?
  {
    hide LayoutFor, Row, Layout.WellShaped, RootOf, TreeRows, Layout.IsRoot, WayTo, WayBeside, ForestOk, TreesOf, Grove,
         Follow, IsTurns, RootList, PlaceOf, HolderPlace, IsRootNode, At;
    if Follow(roots[k], turns).Pol? {
      LayoutFits(g, TreeRows(n), n);
      RootOfGrove(g, n, f, roots, trees, k);
      var r := RootList(n, TreeRows(n), 0)[k];
      WayOfPlace(g, f, TreeRows(n), roots[k], r, turns);
      WayLength(g, n, PlaceOf(TreeRows(n), r, turns));
      RowBounds(TreeRows(n), RootOf(g, PlaceOf(TreeRows(n), r, turns)));
    }
  }

  /** There is a root for every row that has one. */
  lemma {:induction false} RootIndex(g: Layout, n: nat, t: int)
    requires LayoutFor(g, TreeRows(n), n) && 0 <= t <= TreeRows(n) && RootExistsOnRow(n, t)
    ensures BiggerTrees(n, t, TreeRows(n)) < |RootList(n, TreeRows(n), 0)|
  {
    hide LayoutFor, Row, Layout.WellShaped, RootOf, TreeRows, RootList, BiggerTrees, Pow2, Shr, Layout.IsRoot;
    var rows := TreeRows(n);
    LayoutFits(g, rows, n);
    var r := RootOfRow(g, rows, n, t);
    RootAtIndex(g, n, r);
    RootOfRoot(g, r);
  }

  lemma {:induction false} RootOfRow(g: Layout, rows: nat, n: nat, t: nat) returns (r: nat)
    requires LayoutFor(g, rows, n) && t <= rows && RootExistsOnRow(n, t)
    ensures r in g.nodes && g.IsRoot(r) && Valid(rows, r) && Row(rows, r) == t
  {
    hide LayoutFor, Row, Layout.WellShaped, Shr, Pow2, Offset, InForest, Start, Layout.IsRoot;
    LayoutFits(g, rows, n);
    OddBefore(n, t);
    PlaceOnRow(rows, n, t, Shr(n, t) - 1);
    r := Start(rows, t) + (Shr(n, t) - 1);
    LayoutAt(g, rows, n, r);
    RootIff(rows, n, r);
  }

  lemma TurnIs(rows: nat, p: nat, h: nat)
    ensures Turn(rows, p, h) == if h == 0 then ParentMany(p, h, rows) % 2 else 1 - ParentMany(p, h, rows) % 2
  {
  }

  /** The position whose children some turns lead to the holder of. */
  function HolderPlace(rows: nat, r: nat, turns: seq<int>): nat
    decreases |turns|
  {
    if |turns| == 0 then r else Down(rows, HolderPlace(rows, r, turns[..|turns| - 1]), 1 - turns[|turns| - 1])
  }

  /** The position of the node some turns lead to. */
  function PlaceOf(rows: nat, r: nat, turns: seq<int>): nat {
    if |turns| == 0 then r else Down(rows, HolderPlace(rows, r, turns[..|turns| - 1]), turns[|turns| - 1])
  }

  /** A child, for positions above the leaves. */
  function Down(rows: nat, p: nat, side: int): nat {
    if p < Pow2(rows) then p else if side % 2 == 0 then LeftChild(rows, p) else RightChild(rows, p)
  }

  ghost predicate IsTurns(turns: seq<int>) {
    forall i :: 0 <= i < |turns| ==> 0 <= turns[i] < 2
  }

  lemma {:induction false} DownUp(g: Layout, rows: nat, p: nat)
    requires g.m == Pow2(rows)
    ensures Down(rows, g.Up(p), p % 2) == p
  {
  }

  /** The turns to a node lead back to its position. */
  lemma {:induction false} PlaceOfWay(g: Layout, rows: nat, p: nat)
    requires g.WellShaped() && g.m == Pow2(rows) && p in g.nodes
    ensures PlaceOf(rows, RootOf(g, p), WayTo(g, p)) == p
    ensures HolderPlace(rows, RootOf(g, p), WayBeside(g, p)) == p
    ensures IsTurns(WayTo(g, p)) && IsTurns(WayBeside(g, p))
    decreases 2 * g.m - p
  {
    hide Layout.WellShaped, Layout.IsRoot, RootOf, WayTo, WayBeside, Down, Pow2;
    WaySteps(g, p);
    if g.IsRoot(p) {
      RootOfRoot(g, p);
    } else {
      g.NonRootFacts(p);
      RootOfUp(g, p);
      PlaceOfWay(g, rows, g.Up(p));
      DownUp(g, rows, p);
      var way := WayBeside(g, g.Up(p));
      assert (way + [p % 2])[..|way|] == way && (way + [1 - p % 2])[..|way|] == way;
    }
  }

  lemma {:induction false} DownChild(g: Layout, rows: nat, p: nat, side: int)
    requires g.WellShaped() && g.m == Pow2(rows) && p in g.nodes && p >= g.m && 0 <= side < 2
    ensures var c := Down(rows, p, side);
            c in g.nodes && !g.IsRoot(c) && g.Up(c) == p && c % 2 == side && Down(rows, p, 1 - side) == Sibling(c)
  {
    g.ChildFacts(p);
  }

  /** And any turns that lead to a node are those to its position. */
  lemma {:induction false} WayOfPlace(g: Layout, f: Forest, rows: nat, root: PolNode, r: nat, turns: seq<int>)
    requires ForestOk(g, f) && g.m == Pow2(rows) && g.IsRoot(r) && IsRootNode(root, At(g, f, r)) && IsTurns(turns)
    requires Follow(root, turns).Pol?
    ensures var p := PlaceOf(rows, r, turns);
            p in g.nodes && RootOf(g, p) == r && WayTo(g, p) == turns && Present(g, f, p)
    ensures var q := HolderPlace(rows, r, turns);
            q in g.nodes && RootOf(g, q) == r && WayBeside(g, q) == turns && Present(g, f, q)
    decreases |turns|
  {
    hide Layout.WellShaped, Layout.IsRoot, RootOf, WayTo, WayBeside, Down, Pow2, At, Kids, ForestOk, IsRootNode,
         Present, Follow;
    OkShape(g, f);
    RootNode(g, r);
    if |turns| == 0 {
      RootOfRoot(g, r);
      WaySteps(g, r);
      RootPresent(g, f, r);
    } else {
      var way, last := turns[..|turns| - 1], turns[|turns| - 1];
      assert turns == way + [last];
      FollowMore(root, way, last);
      WayOfPlace(g, f, rows, root, r, way);
      var q := HolderPlace(rows, r, way);
      Found(g, f, root, q);
      HolderHasKids(g, f, q, Follow(root, WayTo(g, q)), Follow(root, way), last);
      OneStepDown(g, f, rows, q, last);
      OneStepDown(g, f, rows, q, 1 - last);
    }
  }

  lemma {:induction false} OneStepDown(g: Layout, f: Forest, rows: nat, q: nat, side: int)
    requires ForestOk(g, f) && g.m == Pow2(rows) && q in g.nodes && At(g, f, q).Node? && 0 <= side < 2
    ensures var c := Down(rows, q, side);
            && c in g.nodes && RootOf(g, c) == RootOf(g, q) && Present(g, f, c)
            && WayTo(g, c) == WayBeside(g, q) + [side] && WayBeside(g, c) == WayBeside(g, q) + [1 - side]
  {
    hide Layout.WellShaped, Layout.IsRoot, RootOf, WayTo, WayBeside, Down, Pow2, At, ForestOk, Present;
    OkShape(g, f);
    AtChildren(g, f, q);
    DownChild(g, rows, q, side);
    var c := Down(rows, q, side);
    RootOfUp(g, c);
    WaySteps(g, c);
    PresentBelow(g, f, c);
  }

  lemma {:induction false} HolderHasKids(g: Layout, f: Forest, q: nat, n: PolNode, s: PolNode, turn: int)
    requires Finds(g, f, q, n, s) && Present(g, f, q) && Niece(s, turn).Pol?
    ensures At(g, f, q).Node?
  {
    hide At, Present;
    if !At(g, f, q).Node? { NoKids(s, At(g, f, q)); }
  }

  function Reversed(s: seq<int>): (r: seq<int>)
    ensures |r| == |s| && forall i :: 0 <= i < |s| ==> r[i] == s[|s| - 1 - i]
  {
    seq(|s|, i requires 0 <= i < |s| => s[|s| - 1 - i])
  }

  /** The root that has a hash and is lowest of those that do. */
  ghost predicate LowestWith(roots: seq<PolNode>, data: Hash, k: nat) {
    k < |roots| && roots[k].Pol? && roots[k].data == data &&
    forall j :: k < j < |roots| ==> roots[j].Pol? && roots[j].data != data
  }

  lemma {:induction false} NoRootsAbove(n: nat, rows: nat)
    requires n <= Pow2(rows)
    ensures |RootList(n, rows, rows + 1)| == 0
  {
    hide RootList;
    RootsAbove(n, rows, rows);
    NoBigger(n, rows);
  }

  /** The indicator of the ways up: the last one first, and the first one flipped. */
  ghost predicate Indicates(up: seq<int>, i: nat, indicator: int)
    requires i <= |up|
  {
    forall j :: 0 <= j < i ==> Digit(indicator, j) == if j == i - 1 then 1 - up[0] else up[i - 1 - j]
  }

  lemma IndicateNone(up: seq<int>, indicator: int)
    ensures Indicates(up, 0, indicator)
  {
  }

  lemma {:induction false} IndicateMore(up: seq<int>, i: nat, indicator: int)
    requires i < |up| && IsTurns(up) && Indicates(up, i, indicator)
    ensures var next := 2 * indicator + up[i]; Indicates(up, i + 1, if i == 0 then FlipLast(next) else next)
  {
    var next := 2 * indicator + up[i];
    assert next / 2 == indicator && next % 2 == up[i];
    if i == 0 {
      FlipDigit(next, 0);
    } else {
      forall j | 0 <= j < i + 1
        ensures Digit(next, j) == if j == i then 1 - up[0] else up[i - j]
      {
        if j > 0 { assert Digit(next, j) == Digit(indicator, j - 1); }
      }
    }
  }

  /** Until the end of the way there are nodes below. */
  lemma {:induction false} StillBelow(g: Layout, f: Forest, rows: nat, root: PolNode, r: nat, turns: seq<int>, i: nat)
    requires ForestOk(g, f) && g.m == Pow2(rows) && g.IsRoot(r) && IsRootNode(root, At(g, f, r)) && IsTurns(turns)
    requires Follow(root, turns).Pol? && i < |turns|
    ensures HolderPlace(rows, r, turns[..i]) >= g.m
  {
    hide Layout.WellShaped, Layout.IsRoot, RootOf, WayTo, WayBeside, Pow2, At, Kids, ForestOk, IsRootNode, Present,
         Follow, HolderPlace, PlaceOf;
    PrefixThere(root, turns, i + 1);
    PrefixThere(root, turns, i);
    assert turns[..i + 1] == turns[..i] + [turns[i]];
    FollowMore(root, turns[..i], turns[i]);
    WayOfPlace(g, f, rows, root, r, turns[..i]);
    var q := HolderPlace(rows, r, turns[..i]);
    Found(g, f, root, q);
    HolderHasKids(g, f, q, Follow(root, WayTo(g, q)), Follow(root, turns[..i]), turns[i]);
    AtChildren(g, f, q);
  }

  lemma {:induction false} PrefixThere(n: PolNode, turns: seq<int>, i: nat)
    requires Follow(n, turns).Pol? && i <= |turns|
    ensures Follow(n, turns[..i]).Pol?
    decreases |turns| - i
  {
    hide Follow;
    if i < |turns| {
      PrefixThere(n, turns, i + 1);
      assert turns[..i + 1] == turns[..i] + [turns[i]];
      FollowMore(n, turns[..i], turns[i]);
    } else {
      assert turns[..i] == turns;
    }
  }

  lemma GroveCount(roots: seq<PolNode>, trees: seq<Tree>)
    requires Grove(roots, trees)
    ensures |roots| == |trees| && forall k :: 0 <= k < |roots| ==> roots[k].Pol?
  {
    hide Kids;
  }

  lemma LowestIn(roots: seq<PolNode>, data: Hash, k: nat)
    requires LowestWith(roots, data, k)
    ensures k < |roots|
  {
  }

  lemma {:induction false} RootOfGrove(g: Layout, n: nat, f: Forest, roots: seq<PolNode>, trees: seq<Tree>, k: nat)
    requires LayoutFor(g, TreeRows(n), n) && ForestOk(g, f) && TreesOf(g, n, f, trees) && Grove(roots, trees) &&
             k < |roots|
    ensures k < |RootList(n, TreeRows(n), 0)|
    ensures var r := RootList(n, TreeRows(n), 0)[k];
            g.IsRoot(r) && IsRootNode(roots[k], At(g, f, r)) && At(g, f, r) == trees[k]
  {
    hide LayoutFor, Row, Layout.WellShaped, TreeRows, RootList, IsRootNode;
    RootPlaces(g, n, k);
    OkShape(g, f);
    AtRootOf(g, f, RootList(n, TreeRows(n), 0)[k]);
  }

  lemma ReversedTurns(up: seq<int>)
    requires IsTurns(up)
    ensures IsTurns(Reversed(up))
  {
  }

  lemma PlaceStart(rows: nat, r: nat, turns: seq<int>)
    ensures HolderPlace(rows, r, turns[..0]) == r
    ensures |turns| == 0 ==> PlaceOf(rows, r, turns) == r
  {
  }

  lemma {:induction false} PlaceMore(rows: nat, r: nat, turns: seq<int>, i: nat)
    requires i < |turns|
    ensures HolderPlace(rows, r, turns[..i + 1]) == Down(rows, HolderPlace(rows, r, turns[..i]), 1 - turns[i])
    ensures i == |turns| - 1 ==> PlaceOf(rows, r, turns) == Down(rows, HolderPlace(rows, r, turns[..i]), turns[i])
  {
    assert turns[..i + 1][..i] == turns[..i];
  }

  lemma {:induction false} IndicatedTurn(up: seq<int>, indicator: int, i: nat)
    requires IsTurns(up) && Indicates(up, |up|, indicator) && i < |up|
    ensures var turns := Reversed(up);
            0 <= turns[i] < 2 && Digit(indicator, i) == if i == |up| - 1 then 1 - turns[i] else turns[i]
  {
    hide Digit;
  }

  lemma SiblingDown(rows: nat, p: nat)
    requires p >= Pow2(rows)
    ensures Sibling(RightChild(rows, p)) == Down(rows, p, 0) && Sibling(LeftChild(rows, p)) == Down(rows, p, 1)
  {
  }

  /** The way up from a node of a position leads back to the position: for every node of a tree that is not empty. */
  lemma {:induction false} PositionOfNode(g: Layout, n: nat, f: Forest, roots: seq<PolNode>, trees: seq<Tree>, p: nat,
                                          k: nat)
    requires LayoutFor(g, TreeRows(n), n) && ForestOk(g, f) && TreesOf(g, n, f, trees) && Grove(roots, trees)
    requires p in g.nodes && Present(g, f, p) && k < |roots| && k < |RootList(n, TreeRows(n), 0)| &&
             RootList(n, TreeRows(n), 0)[k] == RootOf(g, p)
    ensures IsTurns(WayTo(g, p)) && Follow(roots[k], WayTo(g, p)).Pol?
    ensures Follow(roots[k], WayTo(g, p)).data == Merkle(At(g, f, p))
    ensures PlaceOf(TreeRows(n), RootList(n, TreeRows(n), 0)[k], WayTo(g, p)) == p
  {
    hide LayoutFor, Row, Layout.WellShaped, TreeRows, RootList, IsRootNode, RootOf, WayTo, WayBeside, Follow, ForestOk,
         At, TreesOf, Grove, PlaceOf, HolderPlace, Present, Kids, Merkle, Layout.IsRoot;
    LayoutFits(g, TreeRows(n), n);
    RootOfGrove(g, n, f, roots, trees, k);
    PlaceOfWay(g, TreeRows(n), p);
    Found(g, f, roots[k], p);
  }

  /** The index of a root in the list of roots. */
  lemma {:induction false} SameRootIndex(g: Layout, n: nat, j: nat, k: nat)
    requires LayoutFor(g, TreeRows(n), n) && j < |RootList(n, TreeRows(n), 0)| && k < |RootList(n, TreeRows(n), 0)|
    requires RootList(n, TreeRows(n), 0)[j] == RootList(n, TreeRows(n), 0)[k]
    ensures j == k
  {
    hide LayoutFor, RootList, TreeRows;
    RootPlaces(g, n, k);
  }

  /** The search for the root by its hash finds the right one exactly when it is not empty, or is the lowest of the
      empty ones. */
  lemma {:induction false} LowestIff(g: Layout, slots: seq<Hash>, roots: seq<PolNode>, k: nat)
    requires CollisionFree() && GoodSlots(slots) && LayoutFor(g, TreeRows(|slots|), |slots|) &&
             Grove(roots, RootTrees(slots, 0)) && k < |roots|
    ensures roots[k].Pol?
    ensures LowestWith(roots, roots[k].data, k) <==>
            !RootTrees(slots, 0)[k].Nil? || forall j :: k < j < |roots| ==> !RootTrees(slots, 0)[j].Nil?
  {
    hide CollisionFree, GoodSlots, LayoutFor, RootTrees, Merkle, RootList, TreeRows, Collapse, Kids;
    var trees, rows := RootTrees(slots, 0), TreeRows(|slots|);
    LayoutFits(g, rows, |slots|);
    RootTreesAt(g, rows, slots, 0);
    forall j | k <= j < |roots|
      ensures roots[j].Pol? && roots[j].data == Merkle(trees[j]) && (Merkle(trees[j]) == Empty <==> trees[j].Nil?)
      ensures k < j && !trees[j].Nil? ==> Merkle(trees[j]) != Merkle(trees[k])
    {
      RootPlaces(g, |slots|, j);
      RootPlaces(g, |slots|, k);
      var r, s := RootList(|slots|, rows, 0)[j], RootList(|slots|, rows, 0)[k];
      RootNode(g, r);
      CollapseFits(g, slots, r);
      MerkleEmpty(trees[j]);
      if k < j && !trees[j].Nil? && Merkle(trees[j]) == Merkle(trees[k]) { DistinctRoots(g, slots, r, s); }
    }
  }

  /** Among the roots with the hash of a given one there is a lowest. */
  lemma {:induction false} SomeLowest(roots: seq<PolNode>, k: nat) returns (m: nat)
    requires k < |roots| && forall j :: k <= j < |roots| ==> roots[j].Pol?
    ensures k <= m && LowestWith(roots, roots[k].data, m)
  {
    m := k;
    for i := k to |roots|
      invariant k <= m < |roots| && m <= i && roots[m].data == roots[k].data
      invariant forall j :: m < j < i ==> roots[j].data != roots[k].data
    {
      if roots[i].data == roots[k].data { m := i; }
    }
  }

  /** The tree is not empty, or no smaller tree is. */
  ghost predicate FoundByHash(trees: seq<Tree>, k: nat) {
    k < |trees| && (!trees[k].Nil? || forall j :: k < j < |trees| ==> !trees[j].Nil?)
  }

  /** The root the search arrives at: that of the node itself, or that of a smaller tree when both are empty. */
  lemma {:induction false} SearchFinds(g: Layout, slots: seq<Hash>, roots: seq<PolNode>, k: nat, turns: seq<int>)
    returns (m: nat)
    requires CollisionFree() && GoodSlots(slots) && LayoutFor(g, TreeRows(|slots|), |slots|)
    requires Grove(roots, RootTrees(slots, 0)) && k < |roots| && Follow(roots[k], turns).Pol?
    ensures roots[k].Pol? && k <= m < |roots| && LowestWith(roots, roots[k].data, m)
    ensures m == k <==> FoundByHash(RootTrees(slots, 0), k)
    ensures m != k ==> turns == [] && RootTrees(slots, 0)[m].Nil? && RootTrees(slots, 0)[k].Nil?
    ensures Follow(roots[m], turns).Pol?
  {
    hide CollisionFree, GoodSlots, LayoutFor, RootTrees, Merkle, TreeRows, Follow, Kids;
    var trees := RootTrees(slots, 0);
    forall j | 0 <= j < |roots|
      ensures roots[j].Pol?
    {
      LowestIff(g, slots, roots, j);
    }
    LowestIff(g, slots, roots, k);
    m := SomeLowest(roots, k);
    LowestIff(g, slots, roots, m);
    if m != k {
      assert trees[k].Nil?;
      NoKids(roots[k], trees[k]);
      NothingBelow(roots[k], turns);
      EqualHashes(g, slots, roots, k, m);
      FollowNone(roots[m]);
    }
  }

  lemma {:induction false} NothingBelow(n: PolNode, turns: seq<int>)
    requires n.Pol? && n.lNiece.NoNode? && n.rNiece.NoNode? && Follow(n, turns).Pol?
    ensures turns == []
    decreases |turns|
  {
    if |turns| > 0 {
      var t := turns[..|turns| - 1];
      NothingBelow(n, t);
    }
  }

  /** Of two roots with the same hash both are empty. */
  lemma {:induction false} EqualHashes(g: Layout, slots: seq<Hash>, roots: seq<PolNode>, k: nat, m: nat)
    requires CollisionFree() && GoodSlots(slots) && LayoutFor(g, TreeRows(|slots|), |slots|)
    requires Grove(roots, RootTrees(slots, 0)) && k < m < |roots| && RootTrees(slots, 0)[k].Nil?
    requires roots[k].Pol? && roots[m].Pol? && roots[k].data == roots[m].data
    ensures RootTrees(slots, 0)[m].Nil?
  {
    hide CollisionFree, GoodSlots, LayoutFor, RootTrees, RootList, TreeRows, Collapse, Kids;
    var rows, trees := TreeRows(|slots|), RootTrees(slots, 0);
    LayoutFits(g, rows, |slots|);
    RootTreesAt(g, rows, slots, 0);
    RootPlaces(g, |slots|, m);
    RootNode(g, RootList(|slots|, rows, 0)[m]);
    CollapseFits(g, slots, RootList(|slots|, rows, 0)[m]);
    MerkleEmpty(trees[m]);
  }

  lemma {:induction false} SlotsForest(g: Layout, slots: seq<Hash>)
    requires LayoutFor(g, TreeRows(|slots|), |slots|)
    ensures ForestOk(g, ForestOf(g, slots)) && TreesOf(g, |slots|, ForestOf(g, slots), RootTrees(slots, 0))
  {
    hide LayoutFor, TreeRows, ForestOf, ForestOk, TreesOf, RootTrees, Compact, Layout.WellShaped;
    LayoutFits(g, TreeRows(|slots|), |slots|);
    ForestOfCompact(g, slots);
    CompactOk(g, ForestOf(g, slots));
    TreesOfSlots(g, slots);
  }

  /** Two empty roots are at different positions. */
  lemma {:induction false} OtherRoot(g: Layout, slots: seq<Hash>, roots: seq<PolNode>, p: nat, k: nat, m: nat)
    requires LayoutFor(g, TreeRows(|slots|), |slots|) && Grove(roots, RootTrees(slots, 0)) && k < |roots| && m < |roots|
    requires p in g.nodes && k != m && WayTo(g, p) == [] && k < |RootList(|slots|, TreeRows(|slots|), 0)|
    requires RootList(|slots|, TreeRows(|slots|), 0)[k] == RootOf(g, p)
    ensures m < |RootList(|slots|, TreeRows(|slots|), 0)|
    ensures var q := PlaceOf(TreeRows(|slots|), RootList(|slots|, TreeRows(|slots|), 0)[m], []);
            && q != p && g.IsRoot(q) && g.IsRoot(p)
            && At(g, ForestOf(g, slots), q) == RootTrees(slots, 0)[m]
            && At(g, ForestOf(g, slots), p) == RootTrees(slots, 0)[k]
  {
    hide LayoutFor, Row, Layout.WellShaped, RootOf, TreeRows, Layout.IsRoot, RootList, WayTo, WayBeside, ForestOk, At,
         TreesOf, Grove, ForestOf, RootTrees;
    SlotsForest(g, slots);
    RootOfGrove(g, |slots|, ForestOf(g, slots), roots, RootTrees(slots, 0), k);
    RootOfGrove(g, |slots|, ForestOf(g, slots), roots, RootTrees(slots, 0), m);
    LayoutFits(g, TreeRows(|slots|), |slots|);
    WaySteps(g, p);
    RootOfRoot(g, p);
    RootNode(g, RootList(|slots|, TreeRows(|slots|), 0)[m]);
    if RootList(|slots|, TreeRows(|slots|), 0)[m] == p { SameRootIndex(g, |slots|, k, m); }
  }
}
