/** The nodes of the pollard, as values. */
module Nieces {
  // A node does not hold its own children but those of its sibling, its nieces; only a root, which has no
  // sibling, holds its own.  Here a node is a value with what it holds below it; its aunt is the node it hangs
  // from.  The cells of the program stand for such values (`Cells`).

  import opened Hashes
  import opened Positions
  import opened Layouts
  import opened Forests
  import opened TreeIndex
  import opened OneDeletion

  datatype PolNode = NoNode | Pol(data: Hash, lNiece: PolNode, rNiece: PolNode, remember: bool)

  /** The node holds the children of a tree. */
  ghost predicate Kids(n: PolNode, t: Tree)
    decreases t, 0
  {
    n.Pol? && if t.Node? then Holds(n.lNiece, t.left, t.right) && Holds(n.rNiece, t.right, t.left)
              else n.lNiece.NoNode? && n.rNiece.NoNode?
  }

  /** The node of a tree beside another: it has the hash of the one and the children of the other. */
  ghost predicate Holds(n: PolNode, t: Tree, beside: Tree)
    decreases beside, 1
  {
    n.Pol? && n.data == Merkle(t) && Kids(n, beside)
  }

  /** The node of a tree by itself. */
  ghost predicate IsRootNode(n: PolNode, t: Tree) {
    Holds(n, t, t)
  }

  /** The nodes of some trees, in order. */
  ghost predicate Grove(roots: seq<PolNode>, trees: seq<Tree>) {
    |roots| == |trees| && forall i :: 0 <= i < |trees| ==> IsRootNode(roots[i], trees[i])
  }

  function Niece(n: PolNode, turn: int): PolNode {
    if n.NoNode? then NoNode else if turn % 2 == 0 then n.lNiece else n.rNiece
  }

  /** Where some turns lead. */
  function Follow(n: PolNode, turns: seq<int>): PolNode {
    if |turns| == 0 then n else Niece(Follow(n, turns[..|turns| - 1]), turns[|turns| - 1])
  }

  lemma FollowMore(n: PolNode, turns: seq<int>, turn: int)
    ensures Follow(n, turns + [turn]) == Niece(Follow(n, turns), turn)
  {
    assert (turns + [turn])[..|turns|] == turns;
  }

  /** The turns to the node that holds the children of a position: its sibling, or the root itself. */
  ghost function WayBeside(g: Layout, p: nat): seq<int>
    decreases 2 * g.m - p
  {
    if p !in g.nodes || p >= 2 * g.m - 1 || g.IsRoot(p) then [] else WayBeside(g, g.Up(p)) + [1 - p % 2]
  }

  lemma {:induction false} FollowFirst(n: PolNode, turn: int, turns: seq<int>)
    ensures Follow(n, [turn] + turns) == Follow(Niece(n, turn), turns)
    decreases |turns|
  {
    var all := [turn] + turns;
    if |turns| > 0 {
      FollowFirst(n, turn, turns[..|turns| - 1]);
      assert all[..|all| - 1] == [turn] + turns[..|turns| - 1];
    } else {
      assert all[..0] == [];
    }
  }

  /** The turns to the node of a position. */
  ghost function WayTo(g: Layout, p: nat): seq<int> {
    if p !in g.nodes || p >= 2 * g.m - 1 || g.IsRoot(p) then [] else WayBeside(g, g.Up(p)) + [p % 2]
  }

  lemma {:induction false} WaySteps(g: Layout, p: nat)
    requires g.WellShaped() && p in g.nodes
    ensures g.IsRoot(p) ==> WayTo(g, p) == [] == WayBeside(g, p)
    ensures !g.IsRoot(p) ==> WayTo(g, p) == WayBeside(g, g.Up(p)) + [p % 2]
    ensures !g.IsRoot(p) ==> WayBeside(g, p) == WayBeside(g, g.Up(p)) + [1 - p % 2]
  {
    g.NodeBound(p);
  }

  lemma KidsAt(n: PolNode, t: Tree, turn: int)
    requires Kids(n, t) && t.Node? && 0 <= turn < 2
    ensures var a, b := if turn == 0 then t.left else t.right, if turn == 0 then t.right else t.left;
            Holds(Niece(n, turn), a, b)
  {
  }

  lemma HoldsKids(n: PolNode, t: Tree, s: Tree)
    requires Holds(n, t, s)
    ensures n.Pol? && n.data == Merkle(t) && Kids(n, s)
  {
  }

  /** What is found on the way to a position: the node of the position, with the hash of what is there, and the node
      beside it, which holds the children of what is there; or nothing. */
  ghost predicate Finds(g: Layout, f: Forest, p: nat, n: PolNode, s: PolNode) {
    && (if Present(g, f, p) then n.Pol? && n.data == Merkle(At(g, f, p)) && Kids(s, At(g, f, p))
        else n.NoNode? && s.NoNode?)
    && (!g.IsRoot(p) && Present(g, f, p) ==> Holds(n, At(g, f, p), At(g, f, Sibling(p))))
  }

  lemma {:induction false} Found(g: Layout, f: Forest, root: PolNode, p: nat)
    requires ForestOk(g, f) && p in g.nodes && IsRootNode(root, At(g, f, RootOf(g, p)))
    ensures Finds(g, f, p, Follow(root, WayTo(g, p)), Follow(root, WayBeside(g, p)))
    decreases 2 * g.m - p
  {
    hide Kids, At, Layout.WellShaped, ForestOk, Layout.IsRoot, RootOf, Merkle, Follow, WayTo, WayBeside, Present, Holds,
         Finds, Niece;
    OkShape(g, f);
    WaySteps(g, p);
    if g.IsRoot(p) {
      RootOfRoot(g, p);
      FollowNone(root);
      FindsRoot(g, f, p, root);
    } else {
      g.NonRootFacts(p);
      RootOfUp(g, p);
      var u := g.Up(p);
      Found(g, f, root, u);
      FollowMore(root, WayBeside(g, u), p % 2);
      FollowMore(root, WayBeside(g, u), 1 - p % 2);
      FindsBelow(g, f, p, Follow(root, WayTo(g, u)), Follow(root, WayBeside(g, u)));
    }
  }

  lemma FollowNone(n: PolNode)
    ensures Follow(n, []) == n
  {
  }

  lemma {:induction false} FindsRoot(g: Layout, f: Forest, p: nat, root: PolNode)
    requires g.WellShaped() && g.IsRoot(p) && IsRootNode(root, At(g, f, p))
    ensures Finds(g, f, p, root, root)
  {
    hide Kids, At, Merkle;
    RootPresent(g, f, p);
  }

  /** From the node that holds the children of the parent. */
  lemma {:induction false} FindsBelow(g: Layout, f: Forest, p: nat, parent: PolNode, beside: PolNode)
    requires ForestOk(g, f) && p in g.nodes && !g.IsRoot(p) && Finds(g, f, g.Up(p), parent, beside)
    ensures Finds(g, f, p, Niece(beside, p % 2), Niece(beside, 1 - p % 2))
  {
    hide Kids, At, Layout.WellShaped, ForestOk, Layout.IsRoot, Merkle, Present;
    OkShape(g, f);
    var u := g.Up(p);
    PresentBelow(g, f, p);
    if Present(g, f, p) {
      AtUp(g, f, p);
      KidsAt(beside, At(g, f, u), p % 2);
      KidsAt(beside, At(g, f, u), 1 - p % 2);
    } else if Present(g, f, u) {
      NoKids(beside, At(g, f, u));
    }
  }

  lemma RootPresent(g: Layout, f: Forest, p: nat)
    requires p in g.nodes && g.IsRoot(p)
    ensures Present(g, f, p)
  {
  }

  lemma NoKids(n: PolNode, t: Tree)
    requires Kids(n, t) && !t.Node?
    ensures n.Pol? && n.lNiece.NoNode? && n.rNiece.NoNode?
  {
  }

  lemma RootOfUp(g: Layout, p: nat)
    requires g.WellShaped() && p in g.nodes && !g.IsRoot(p)
    ensures RootOf(g, p) == RootOf(g, g.Up(p))
  {
    g.NodeBound(p);
  }

  /** Every node has both nieces or none. */
  ghost predicate Whole(n: PolNode) {
    n.Pol? ==> (n.lNiece.Pol? <==> n.rNiece.Pol?) && Whole(n.lNiece) && Whole(n.rNiece)
  }

  lemma {:induction false} HoldsWhole(n: PolNode, t: Tree, s: Tree)
    requires Holds(n, t, s)
    ensures Whole(n)
    decreases s
  {
    if s.Node? {
      HoldsWhole(n.lNiece, s.left, s.right);
      HoldsWhole(n.rNiece, s.right, s.left);
    }
  }

  lemma {:induction false} RootWhole(n: PolNode, t: Tree)
    requires IsRootNode(n, t)
    ensures Whole(n) && n.Pol?
  {
    HoldsWhole(n, t, t);
  }
}
