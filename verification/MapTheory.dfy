/** A cache of hashes by position. */
module MapTheory {
  // The cache knows the hashes of some positions, and which of them belong to leaves to be
  // remembered.  A forest is given by the trees at its tops: the roots, or, in the middle of an
  // addition, the roots not yet used and the top of the carry.  Of the layout only the number
  // of leaves there is room for matters.

  import opened Hashes
  import opened Positions
  import opened Layouts
  import opened Forests
  import opened Deletion
  import opened Sequential

  datatype Cached = Cached(hash: Hash, remember: bool)

  /** What is at a position below the tops. */
  ghost function Sees(g: Layout, trees: Forest, p: nat): Tree
    decreases 2 * g.m - p
  {
    if p in trees then trees[p]
    else if p >= 2 * g.m - 1 then Nil
    else
      match Sees(g, trees, g.Up(p))
      case Node(l, r) => if p % 2 == 0 then l else r
      case _ => Nil
  }

  /** At or below a top. */
  ghost predicate Inside(g: Layout, trees: Forest, p: nat)
    decreases 2 * g.m - p
  {
    p in trees || (p < 2 * g.m - 1 && Inside(g, trees, g.Up(p)))
  }

  /** No top is above another, and the trees fit. */
  ghost predicate TopsOk(g: Layout, trees: Forest) {
    && (forall t :: t in trees ==> t < 2 * g.m - 1 && Fits(g, t, trees[t]) && Solid(trees[t]))
    && (forall t, u :: t in trees && u in trees ==> !Above(g, t, u))
  }

  /** The positions of the leaves to be remembered. */
  ghost function Remembered(nodes: map<nat, Cached>): set<nat> {
    set p | p in nodes && nodes[p].remember
  }

  /** Every hash in the cache is right, and none is kept for a place that is empty, but for roots. */
  ghost predicate TrueNodes(g: Layout, trees: Forest, nodes: map<nat, Cached>) {
    && (forall p :: p in nodes ==> Inside(g, trees, p) && nodes[p].hash == Merkle(Sees(g, trees, p)))
    && (forall p :: p in nodes && p !in trees ==> !Sees(g, trees, p).Nil?)
    && (forall p :: p in nodes && nodes[p].remember ==> Sees(g, trees, p).Leaf?)
    && (forall t :: t in trees ==> t in nodes)
  }

  /** The siblings on the way up from every remembered leaf are in the cache. */
  ghost predicate Provable(g: Layout, trees: Forest, nodes: map<nat, Cached>) {
    forall y: nat, c {:trigger AtOrAbove(g, y, c)} ::
      c in Remembered(nodes) && AtOrAbove(g, y, c) && Inside(g, trees, y) && y !in trees ==> Sibling(y) in nodes
  }

  /** Every node in the cache has its aunt there, if it has one. */
  ghost predicate Aunts(g: Layout, trees: Forest, nodes: map<nat, Cached>) {
    forall c :: c in nodes && c !in trees && g.Up(c) !in trees ==> Sibling(g.Up(c)) in nodes
  }

  ghost predicate Keeps(g: Layout, trees: Forest, nodes: map<nat, Cached>) {
    TopsOk(g, trees) && TrueNodes(g, trees, nodes) && Provable(g, trees, nodes) && Aunts(g, trees, nodes)
  }

  /** The children of a position below the tops are below the tops. */
  lemma {:induction false} InsideChild(g: Layout, trees: Forest, p: nat)
    requires TopsOk(g, trees) && Inside(g, trees, p) && g.m <= p < 2 * g.m - 1
    ensures Inside(g, trees, g.Left(p)) && Inside(g, trees, g.Right(p))
    ensures g.Left(p) !in trees && g.Right(p) !in trees
    ensures Sees(g, trees, p).Node? ==>
              Sees(g, trees, g.Left(p)) == Sees(g, trees, p).left &&
                  Sees(g, trees, g.Right(p)) == Sees(g, trees, p).right
    ensures !Sees(g, trees, p).Node? ==> Sees(g, trees, g.Left(p)).Nil? && Sees(g, trees, g.Right(p)).Nil?
  {
    hide Above;
    assert g.Up(g.Left(p)) == p && g.Up(g.Right(p)) == p;
    var t := TopAbove(g, trees, p);
    BelowTop(g, trees, t, p, g.Left(p));
    BelowTop(g, trees, t, p, g.Right(p));
  }

  lemma {:induction false} TopAbove(g: Layout, trees: Forest, p: nat) returns (t: nat)
    requires Inside(g, trees, p)
    ensures t in trees && AtOrAbove(g, t, p)
    decreases 2 * g.m - p
  {
    if p in trees {
      t := p;
    } else {
      t := TopAbove(g, trees, g.Up(p));
      AboveTrans(g, t, p);
    }
  }

  lemma {:induction false} BelowTop(g: Layout, trees: Forest, t: nat, p: nat, c: nat)
    requires TopsOk(g, trees) && t in trees && AtOrAbove(g, t, p) && g.Up(c) == p && c < 2 * g.m - 1
    ensures c !in trees
  {
    AboveTrans(g, t, c);
  }

  /** A position below a top that is not a top has its parent and its sibling below a top. */
  lemma {:induction false} InsideUp(g: Layout, trees: Forest, p: nat)
    requires TopsOk(g, trees) && Inside(g, trees, p) && p !in trees
    ensures g.m <= g.Up(p) < 2 * g.m - 1 && Inside(g, trees, g.Up(p)) && p < g.Up(p)
    ensures Inside(g, trees, Sibling(p)) && Sibling(p) !in trees && g.Up(Sibling(p)) == g.Up(p)
    ensures if p % 2 == 0 then p == g.Left(g.Up(p)) && Sibling(p) == g.Right(g.Up(p))
            else p == g.Right(g.Up(p)) && Sibling(p) == g.Left(g.Up(p))
  {
    hide Above;
    InsideBound(g, trees, g.Up(p));
    InsideChild(g, trees, g.Up(p));
  }

  lemma {:induction false} InsideBound(g: Layout, trees: Forest, p: nat)
    requires TopsOk(g, trees) && Inside(g, trees, p)
    ensures p < 2 * g.m - 1
  {
  }

  /** Whether one of the nieces of a position is in the cache. */
  predicate NiecesPresent(rows: nat, nodes: map<nat, Cached>, pos: nat)
    requires Valid(rows, pos) && Valid(rows, Sibling(pos))
  {
    Row(rows, pos) != 0 && Sibling(pos) >= Pow2(rows) &&
    (LeftChild(rows, Sibling(pos)) in nodes || RightChild(rows, Sibling(pos)) in nodes)
  }

  function Remember(nodes: map<nat, Cached>, pos: nat): bool {
    pos in nodes && nodes[pos].remember
  }

  /** Forget a position and its sibling, each unless one of the two is to be remembered or it has a
      niece. */
  function PrunePosition(rows: nat, nodes: map<nat, Cached>, pos: nat): map<nat, Cached>
    requires Valid(rows, pos) && Valid(rows, Sibling(pos))
  {
    if Remember(nodes, pos) || Remember(nodes, Sibling(pos)) then nodes
    else
      SiblingBack(pos);
      var nodes1 := if NiecesPresent(rows, nodes, Sibling(pos)) then nodes else nodes - {Sibling(pos)};
      if NiecesPresent(rows, nodes1, pos) then nodes1 else nodes1 - {pos}
  }

  lemma SiblingBack(p: nat)
    ensures Sibling(Sibling(p)) == p
  {
  }

  /** A position has a niece in the cache exactly when its sibling has a child there. */
  lemma {:induction false} NiecesAre(g: Layout, rows: nat, nodes: map<nat, Cached>, pos: nat)
    requires g.m == Pow2(rows) && pos < 2 * g.m - 2
    ensures Valid(rows, pos) && Valid(rows, Sibling(pos))
    ensures NiecesPresent(rows, nodes, pos) <==>
            Sibling(pos) >= g.m && (g.Left(Sibling(pos)) in nodes || g.Right(Sibling(pos)) in nodes)
  {
    RowSibling(rows, pos);
    if Row(rows, pos) == 0 { assert Row(rows, Sibling(pos)) == 0; }
  }

  /** What is forgotten: of the two, those that nobody needs. */
  lemma {:induction false} Pruned(g: Layout, rows: nat, nodes: map<nat, Cached>, pos: nat, x: nat)
    requires g.m == Pow2(rows) && pos < 2 * g.m - 2
    ensures Valid(rows, pos) && Valid(rows, Sibling(pos))
    ensures var after := PrunePosition(rows, nodes, pos);
            && (x in after ==> x in nodes && after[x] == nodes[x])
            && (x in nodes && x !in after ==>
                  && (x == pos || x == Sibling(pos)) && !nodes[x].remember && !Remember(nodes, Sibling(x))
                  && !(Sibling(x) >= g.m && (g.Left(Sibling(x)) in nodes || g.Right(Sibling(x)) in nodes)))
  {
    hide Row, NiecesPresent;
    NiecesAre(g, rows, nodes, pos);
    SiblingBack(pos);
    SiblingBounds(g, pos);
    NiecesAre(g, rows, nodes, Sibling(pos));
    var nodes1 := if NiecesPresent(rows, nodes, Sibling(pos)) then nodes else nodes - {Sibling(pos)};
    NiecesAre(g, rows, nodes1, pos);
    ChildrenApart(g, Sibling(pos));
  }

  lemma SiblingBounds(g: Layout, pos: nat)
    requires pos < 2 * g.m - 2
    ensures Sibling(pos) < 2 * g.m - 2
  {
  }

  lemma ChildrenApart(g: Layout, p: nat)
    ensures g.m <= p < 2 * g.m - 1 ==> g.Left(p) != p && g.Right(p) != p
  {
  }

  /** Pruning keeps what is needed. */
  lemma {:induction false} PruneKeeps(g: Layout, rows: nat, trees: Forest, nodes: map<nat, Cached>, pos: nat)
    requires g.m == Pow2(rows) && Keeps(g, trees, nodes) && Inside(g, trees, pos) && pos !in trees
    ensures pos < 2 * g.m - 2 && Valid(rows, pos) && Valid(rows, Sibling(pos))
    ensures Keeps(g, trees, PrunePosition(rows, nodes, pos))
    ensures Remembered(PrunePosition(rows, nodes, pos)) == Remembered(nodes)
    ensures forall x :: x in PrunePosition(rows, nodes, pos) ==>
              x in nodes && PrunePosition(rows, nodes, pos)[x] == nodes[x]
  {
    hide Above, Sees, Inside, PrunePosition, TopsOk, AtOrAbove;
    InsideUp(g, trees, pos);
    NotTop(g, pos);
    Pruned(g, rows, nodes, pos, 0);
    var after := PrunePosition(rows, nodes, pos);
    forall x
      ensures x in after ==> x in nodes && after[x] == nodes[x]
      ensures x in nodes && x !in after ==>
                (x == pos || x == Sibling(pos)) && !nodes[x].remember && !Remember(nodes, Sibling(x))
      ensures x in nodes && x !in after ==> !(Sibling(x) >= g.m &&
                                              (g.Left(Sibling(x)) in nodes || g.Right(Sibling(x)) in nodes))
    {
      Pruned(g, rows, nodes, pos, x);
    }
    assert Remembered(after) == Remembered(nodes);
    forall y: nat, c | c in Remembered(after) && AtOrAbove(g, y, c) && Inside(g, trees, y) && y !in trees
      ensures Sibling(y) in after
    {
      if Sibling(y) !in after { PrunedNot(g, rows, trees, nodes, y, c); }
    }
    forall c | c in after && c !in trees && g.Up(c) !in trees
      ensures Sibling(g.Up(c)) in after
    {
      InsideUp(g, trees, c);
      SiblingBack(g.Up(c));
    }
  }

  lemma NotTop(g: Layout, pos: nat)
    requires g.m <= g.Up(pos) < 2 * g.m - 1
    ensures pos < 2 * g.m - 2
  {
  }

  /** The sibling of a node on the way up from a remembered leaf is needed. */
  lemma {:induction false} PrunedNot(g: Layout, rows: nat, trees: Forest, nodes: map<nat, Cached>, y: nat, c: nat)
    requires Keeps(g, trees, nodes) && c in Remembered(nodes) && AtOrAbove(g, y, c) && Inside(g, trees, y) &&
             y !in trees
    ensures Sibling(y) in nodes && Sibling(Sibling(y)) == y
    ensures Remember(nodes, y) || (y >= g.m && (g.Left(y) in nodes || g.Right(y) in nodes))
  {
    hide Sees, Inside, TopsOk;
    InsideUp(g, trees, y);
    if y != c {
      AboveBounds(g, y, c);
      InsideChild(g, trees, y);
      ChildOnTheWay(g, y, c);
      var d := if AtOrAbove(g, g.Left(y), c) then g.Left(y) else g.Right(y);
      assert Sibling(d) in nodes;
    }
  }

  lemma {:induction false} ChildOnTheWay(g: Layout, a: nat, p: nat)
    requires Above(g, a, p) && g.m <= a < 2 * g.m - 1
    ensures AtOrAbove(g, g.Left(a), p) || AtOrAbove(g, g.Right(a), p)
    ensures Sibling(g.Left(a)) == g.Right(a) && Sibling(g.Right(a)) == g.Left(a)
    decreases 2 * g.m - p
  {
    if g.Up(p) != a {
      ChildOnTheWay(g, a, g.Up(p));
      var c := if AtOrAbove(g, g.Left(a), g.Up(p)) then g.Left(a) else g.Right(a);
      AboveTrans(g, c, p);
    }
  }
}
