/** Taking a node out of the pollard, and putting one back. */
module NieceEdits {
  // What the program does by moving the pointers of a few nodes and hashing up to the root is done here, on
  // values, on the way down to these nodes and back; `CellValues` joins the two.  All that has to be known of the
  // tree around is the node that holds the children of a position.

  import opened Hashes
  import opened Positions
  import opened Layouts
  import opened Forests
  import opened Sequential
  import opened Uniqueness
  import opened Navigation
  import opened TreeIndex
  import opened OneDeletion
  import opened Nieces

  function DataOf(n: PolNode): Hash {
    if n.Pol? then n.data else Empty
  }

  function RememberOf(n: PolNode): bool {
    n.Pol? && n.remember
  }

  function WithData(n: PolNode, data: Hash, remember: bool): PolNode {
    if n.Pol? then n.(data := data, remember := remember) else NoNode
  }

  function WithNieces(n: PolNode, l: PolNode, r: PolNode): PolNode {
    if n.Pol? then n.(lNiece := l, rNiece := r) else NoNode
  }

  /** What becomes of a position: the children that are held for it, its hash, and its flag. */
  datatype Edited = Edited(l: PolNode, r: PolNode, data: Hash, remember: bool)

  /** Two nodes in their places: `n` on the side of the turn, `s` on the other. */
  function PlacedOn(turn: int, n: PolNode, s: PolNode, remember: bool): Edited {
    var l, r := if turn % 2 == 0 then n else s, if turn % 2 == 0 then s else n;
    Edited(l, r, ParentHash(DataOf(l), DataOf(r)), remember)
  }

  /** Take out the node beside the one the digits lead to.  The node moves up into the place of its parent, its
      children with it, and the hashes above are made new. */
  function DeleteBelow(x: PolNode, remember: bool, bits: int, h: nat): Edited
    requires h > 0
  {
    var turn := Digit(bits, h - 1);
    var n, s := Niece(x, turn), Niece(x, 1 - turn);
    if h == 1 then Edited(Niece(s, 0), Niece(s, 1), DataOf(n), RememberOf(n))
    else
      var below := DeleteBelow(n, RememberOf(s), bits, h - 1);
      PlacedOn(turn, WithNieces(n, below.l, below.r), WithData(s, below.data, below.remember), remember)
  }

  /** A node and its sibling side by side: each gets the children of the other, of which `holder` has the
      sibling's and the node its own. */
  function SideBySide(node: PolNode, sibling: PolNode, holder: PolNode, right: bool, full: bool): Edited {
    var node', sibling' := WithNieces(node, Niece(holder, 0), Niece(holder, 1)),
        WithNieces(sibling, Niece(node, 0), Niece(node, 1));
    PlacedOn(if right then 1 else 0, node', sibling', full)
  }

  /** Put a node back beside the one the digits lead to, which moves down. */
  function InsertBelow(x: PolNode, remember: bool, bits: int, h: nat, node: PolNode, right: bool, full: bool): Edited
    requires h > 0
  {
    var turn := Digit(bits, h - 1);
    var n, s := Niece(x, turn), Niece(x, 1 - turn);
    if h == 1 then
      var pair := SideBySide(node, n, s, right, full);
      PlacedOn(turn, WithData(n, pair.data, pair.remember), WithNieces(s, pair.l, pair.r), remember)
    else
      var below := InsertBelow(n, RememberOf(s), bits, h - 1, node, right, full);
      PlacedOn(turn, WithNieces(n, below.l, below.r), WithData(s, below.data, below.remember), remember)
  }

  /** The edit is right for a tree. */
  ghost predicate EditedTo(e: Edited, t: Tree) {
    e.data == Merkle(t) && forall data, remember {:trigger Pol(data, e.l, e.r, remember)} ::
        Kids(Pol(data, e.l, e.r, remember), t)
  }

  lemma {:induction false} KidsOfAny(n: PolNode, data: Hash, remember: bool, t: Tree)
    requires n.Pol?
    ensures Kids(n, t) <==> Kids(Pol(data, n.lNiece, n.rNiece, remember), t)
  {
  }

  lemma {:induction false} EditedKids(n: PolNode, e: Edited, t: Tree)
    requires EditedTo(e, t) && n.Pol?
    ensures Kids(WithNieces(n, e.l, e.r), t)
  {
    hide Kids;
    assert Kids(Pol(n.data, e.l, e.r, n.remember), t);
  }

  /** The two nodes of two trees make the node of both. */
  lemma {:induction false} PlacedTo(turn: int, n: PolNode, s: PolNode, remember: bool, a: Tree, b: Tree)
    requires Holds(n, a, b) && Holds(s, b, a)
    ensures EditedTo(PlacedOn(turn, n, s, remember), if turn % 2 == 0 then Node(a, b) else Node(b, a))
  {
    var e, t := PlacedOn(turn, n, s, remember), if turn % 2 == 0 then Node(a, b) else Node(b, a);
    forall data, r {:trigger Pol(data, e.l, e.r, r)}
      ensures Kids(Pol(data, e.l, e.r, r), t)
    {
    }
  }

  /** The digits lead from `p` to `q`, `h` rows below. */
  ghost predicate Leads(g: Layout, bits: int, h: nat, p: nat, q: nat) {
    && h > 0 && p in g.nodes && p >= g.m && q in g.nodes
    && if h == 1 then g.Up(q) == p && Digit(bits, 0) == q % 2
       else
         var c := if Digit(bits, h - 1) % 2 == 0 then g.Right(p) else g.Left(p);
         Leads(g, bits, h - 1, c, q)
  }

  lemma {:induction false} LeadsAbove(g: Layout, bits: int, h: nat, p: nat, q: nat)
    requires g.WellShaped() && Leads(g, bits, h, p, q)
    ensures Above(g, p, q) && p in g.nodes && q in g.nodes && !g.IsRoot(q) && !g.IsRoot(Sibling(q)) &&
            Above(g, p, Sibling(q))
    decreases h
  {
    g.NodeBound(q);
    if h == 1 {
      g.ChildFacts(p);
    } else {
      g.ChildFacts(p);
      var c := if Digit(bits, h - 1) % 2 == 0 then g.Right(p) else g.Left(p);
      LeadsAbove(g, bits, h - 1, c, q);
      AboveThrough(g, p, c, q);
      AboveThrough(g, p, c, Sibling(q));
    }
  }

  lemma {:induction false} AboveThrough(g: Layout, p: nat, c: nat, q: nat)
    requires g.WellShaped() && p in g.nodes && c in g.nodes && g.Up(c) == p && Above(g, c, q)
    ensures Above(g, p, q)
  {
    hide Above, Layout.WellShaped;
    g.NodeBound(c);
    AboveOf(g, p, c, q);
    AboveBounds(g, c, q);
    UpAbove(g, c);
    AboveBounds(g, p, c);
  }

  lemma LeadsParts(g: Layout, bits: int, h: nat, p: nat, q: nat)
    requires g.WellShaped() && Leads(g, bits, h, p, q)
    ensures h > 0 && p in g.nodes && p >= g.m && q in g.nodes
    ensures h == 1 ==> g.Up(q) == p && Digit(bits, 0) == q % 2
    ensures h > 1 ==> Leads(g, bits, h - 1, if Digit(bits, h - 1) % 2 == 0 then g.Right(p) else g.Left(p), q)
  {
  }

  /** The two nodes a holder has. */
  lemma {:induction false} HeldPair(g: Layout, f: Forest, x: PolNode, p: nat, turn: int)
    requires ForestOk(g, f) && p in g.nodes && At(g, f, p).Node? && Kids(x, At(g, f, p)) && 0 <= turn < 2
    ensures p >= g.m
    ensures var c, b := if turn == 0 then g.Left(p) else g.Right(p), if turn == 0 then g.Right(p) else g.Left(p);
            && c in g.nodes && b in g.nodes && Sibling(c) == b && Sibling(b) == c && c % 2 == turn && g.Up(c) == p &&
               g.Up(b) == p
            && Holds(Niece(x, turn), At(g, f, c), At(g, f, b)) && Holds(Niece(x, 1 - turn), At(g, f, b), At(g, f, c))
            && At(g, f, p) == if turn == 0 then Node(At(g, f, c), At(g, f, b)) else Node(At(g, f, b), At(g, f, c))
  {
    hide At, Layout.WellShaped, Holds;
    AtChildren(g, f, p);
    g.ChildFacts(p);
  }

  lemma {:induction false} DeletedChild(g: Layout, f: Forest, rows: nat, p: nat, d: nat)
    requires g.m == Pow2(rows) && ForestOk(g, f) && d in g.nodes && !g.IsRoot(d) && p == g.Up(d) && At(g, f, p).Node?
    ensures Valid(rows, p) && Valid(rows, d) && DeleteAt(rows, p, At(g, f, p), d) == At(g, f, Sibling(d))
  {
    hide IsAncestor, At, Layout.WellShaped;
    OkShape(g, f);
    g.NonRootFacts(d);
    g.NodeBound(d);
    AtChildren(g, f, p);
  }

  /** Deleting below one child. */
  lemma {:induction false} DeletedFurther(g: Layout, f: Forest, rows: nat, p: nat, c: nat, d: nat)
    requires g.m == Pow2(rows) && ForestOk(g, f) && p in g.nodes && At(g, f, p).Node? && p >= g.m &&
             (c == g.Left(p) || c == g.Right(p))
    requires d in g.nodes && Above(g, c, d)
    ensures c in g.nodes && Valid(rows, p) && Valid(rows, d) && Valid(rows, c) && Above(g, p, d)
    ensures var t, e := At(g, f, p), DeleteAt(rows, c, At(g, f, c), d);
            DeleteAt(rows, p, t, d) == if c == g.Left(p) then Node(e, t.right) else Node(t.left, e)
  {
    hide IsAncestor, At, Layout.WellShaped, Above;
    OkShape(g, f);
    AtChildren(g, f, p);
    g.ChildFacts(p);
    AboveThrough(g, p, c, d);
    WhichChild(g, rows, p, d);
    AboveBounds(g, c, d);
  }

  /** The node on the side of the turn, and the position beside it. */
  function OnSide(g: Layout, p: nat, turn: int): nat
    requires p >= g.m
  {
    if turn % 2 == 0 then g.Left(p) else g.Right(p)
  }

  /** The edit that deletes. */
  lemma {:induction false} DeleteBelowTo(g: Layout, f: Forest, rows: nat, x: PolNode, remember: bool, bits: int, h: nat,
                                         p: nat, q: nat)
    requires g.m == Pow2(rows) && ForestOk(g, f) && Leads(g, bits, h, p, q) && Kids(x, At(g, f, p)) &&
             !At(g, f, Sibling(q)).Nil?
    ensures h > 0 && p in g.nodes && Valid(rows, p) && Valid(rows, Sibling(q))
    ensures EditedTo(DeleteBelow(x, remember, bits, h), DeleteAt(rows, p, At(g, f, p), Sibling(q)))
    decreases h
  {
    hide IsAncestor, At, Layout.WellShaped, Above, Layout.IsRoot, Kids, Holds, EditedTo, Leads, ForestOk, DeleteAt,
         Digit, Niece, DeleteBelow, Pow2, Sibling;
    OkShape(g, f);
    LeadsParts(g, bits, h, p, q);
    LeadsAbove(g, bits, h, p, q);
    g.NonRootFacts(q);
    g.NodeBound(p);
    g.NodeBound(Sibling(q));
    NodeAbove(g, f, Sibling(q), p);
    var turn := Digit(bits, h - 1);
    if h == 1 {
      DeleteLast(g, f, rows, x, remember, bits, p, q);
    } else {
      var c := OnSide(g, p, 1 - turn);
      HeldPair(g, f, x, p, turn);
      LeadsAbove(g, bits, h - 1, c, q);
      HoldsKids(Niece(x, turn), At(g, f, OnSide(g, p, turn)), At(g, f, c));
      DeleteBelowTo(g, f, rows, Niece(x, turn), RememberOf(Niece(x, 1 - turn)), bits, h - 1, c, q);
      DeleteStep(g, f, rows, x, remember, bits, h, p, Sibling(q));
    }
  }

  lemma {:induction false} DeleteLast(g: Layout, f: Forest, rows: nat, x: PolNode, remember: bool, bits: int, p: nat,
                                      q: nat)
    requires g.m == Pow2(rows) && ForestOk(g, f) && p in g.nodes && At(g, f, p).Node? && Kids(x, At(g, f, p))
    requires q in g.nodes && g.Up(q) == p && Digit(bits, 0) == q % 2 && Sibling(q) in g.nodes &&
             !g.IsRoot(Sibling(q)) && g.Up(Sibling(q)) == p
    ensures Valid(rows, p) && Valid(rows, Sibling(q))
    ensures EditedTo(DeleteBelow(x, remember, bits, 1), DeleteAt(rows, p, At(g, f, p), Sibling(q)))
  {
    hide IsAncestor, At, Layout.WellShaped, Above, Layout.IsRoot, Kids, Holds, EditedTo, ForestOk, DeleteAt, Digit,
         Niece;
    var turn := Digit(bits, 0);
    HeldPair(g, f, x, p, turn);
    DeletedChild(g, f, rows, p, Sibling(q));
    SameSide(g, p, q, turn);
    TakeUp(Niece(x, turn), Niece(x, 1 - turn), At(g, f, q), At(g, f, Sibling(q)));
  }

  lemma {:induction false} DeleteStep(g: Layout, f: Forest, rows: nat, x: PolNode, remember: bool, bits: int, h: nat,
                                      p: nat, d: nat)
    requires g.m == Pow2(rows) && ForestOk(g, f) && p in g.nodes && At(g, f, p).Node? && Kids(x, At(g, f, p)) &&
             h > 1 && p >= g.m
    requires d in g.nodes && Above(g, OnSide(g, p, 1 - Digit(bits, h - 1)), d) && Valid(rows, d)
    requires var turn := Digit(bits, h - 1); var c := OnSide(g, p, 1 - turn);
             && c in g.nodes && Valid(rows, c)
             && EditedTo(DeleteBelow(Niece(x, turn), RememberOf(Niece(x, 1 - turn)), bits, h - 1),
                         DeleteAt(rows, c, At(g, f, c), d))
    ensures Valid(rows, p) && EditedTo(DeleteBelow(x, remember, bits, h), DeleteAt(rows, p, At(g, f, p), d))
  {
    hide IsAncestor, At, Layout.WellShaped, Above, Layout.IsRoot, Kids, Holds, EditedTo, ForestOk, DeleteAt, Digit,
         Niece;
    var turn := Digit(bits, h - 1);
    var n, s, c, b := Niece(x, turn), Niece(x, 1 - turn), OnSide(g, p, 1 - turn), OnSide(g, p, turn);
    HeldPair(g, f, x, p, turn);
    DeletedFurther(g, f, rows, p, c, d);
    var below, after := DeleteBelow(n, RememberOf(s), bits, h - 1), DeleteAt(rows, c, At(g, f, c), d);
    EditedPair(n, s, below, At(g, f, b), At(g, f, c), after);
    PlacedTo(turn, WithNieces(n, below.l, below.r), WithData(s, below.data, below.remember), remember, At(g, f, b),
             after);
  }

  lemma SameSide(g: Layout, p: nat, q: nat, turn: int)
    requires p >= g.m && g.Up(q) == p && q % 2 == turn
    ensures q == if turn == 0 then g.Left(p) else g.Right(p)
    ensures Sibling(q) == if turn == 0 then g.Right(p) else g.Left(p)
  {
  }

  lemma {:induction false} TakeUp(n: PolNode, s: PolNode, a: Tree, b: Tree)
    requires Holds(n, a, b) && Holds(s, b, a)
    ensures EditedTo(Edited(Niece(s, 0), Niece(s, 1), DataOf(n), RememberOf(n)), a)
  {
    hide Kids;
    var e := Edited(Niece(s, 0), Niece(s, 1), DataOf(n), RememberOf(n));
    forall data, r {:trigger Pol(data, e.l, e.r, r)}
      ensures Kids(Pol(data, e.l, e.r, r), a)
    {
      KidsOfAny(s, data, r, a);
    }
  }

  /** A pair of siblings of which one tree was edited. */
  lemma {:induction false} EditedPair(n: PolNode, s: PolNode, e: Edited, b: Tree, c: Tree, after: Tree)
    requires Holds(n, b, c) && Holds(s, c, b) && EditedTo(e, after)
    ensures Holds(WithNieces(n, e.l, e.r), b, after) && Holds(WithData(s, e.data, e.remember), after, b)
  {
    hide Kids;
    EditedKids(n, e, after);
    KidsOfAny(s, e.data, e.remember, b);
  }

  /** Putting a node beside another makes the node of both. */
  lemma {:induction false} SideBySideTo(node: PolNode, sibling: PolNode, holder: PolNode, right: bool, full: bool,
                                        x: Tree, t: Tree)
    requires IsRootNode(node, x) && sibling.Pol? && sibling.data == Merkle(t) && Kids(holder, t)
    ensures EditedTo(SideBySide(node, sibling, holder, right, full), if right then Node(t, x) else Node(x, t))
  {
    hide Kids;
    HolderPol(holder, t);
    var node', sibling' := WithNieces(node, Niece(holder, 0), Niece(holder, 1)),
        WithNieces(sibling, Niece(node, 0), Niece(node, 1));
    KidsOfAny(holder, node.data, node.remember, t);
    KidsOfAny(node, sibling.data, sibling.remember, x);
    PlacedTo(if right then 1 else 0, node', sibling', full, x, t);
  }

  lemma HolderPol(n: PolNode, t: Tree)
    requires Kids(n, t)
    ensures n.Pol?
  {
  }

  lemma {:induction false} InsertedChild(g: Layout, rows: nat, u: nat, d: nat, t: Tree, x: Tree)
    requires g.m == Pow2(rows) && g.WellShaped() && d in g.nodes && !g.IsRoot(d) && u == g.Up(d)
    ensures Valid(rows, u) && Valid(rows, d) && InsertAt(rows, u, t, d, x) == if d % 2 == 1 then Node(t, x)
            else Node(x, t)
  {
    hide IsAncestor, Layout.WellShaped;
    g.NonRootFacts(d);
    g.NodeBound(d);
  }

  /** Inserting below one child. */
  lemma {:induction false} InsertedFurther(g: Layout, f: Forest, rows: nat, p: nat, c: nat, d: nat, x: Tree)
    requires g.m == Pow2(rows) && ForestOk(g, f) && p in g.nodes && At(g, f, p).Node? && p >= g.m &&
             (c == g.Left(p) || c == g.Right(p))
    requires d in g.nodes && Above(g, c, d)
    ensures c in g.nodes && Valid(rows, p) && Valid(rows, d) && Valid(rows, c) && Above(g, p, d)
    ensures var t, e := At(g, f, p), InsertAt(rows, c, At(g, f, c), d, x);
            InsertAt(rows, p, t, d, x) == if c == g.Left(p) then Node(e, t.right) else Node(t.left, e)
  {
    hide IsAncestor, At, Layout.WellShaped, Above;
    OkShape(g, f);
    AtChildren(g, f, p);
    g.ChildFacts(p);
    AboveThrough(g, p, c, d);
    WhichChild(g, rows, p, d);
    AboveBounds(g, c, d);
  }

  /** A node that holds its own children, and where it is to be put. */
  ghost predicate Inserting(g: Layout, u: nat, d: nat, node: PolNode, right: bool, x: Tree) {
    d in g.nodes && g.Up(d) == u && u in g.nodes && right == (d % 2 == 1) && IsRootNode(node, x)
  }

  /** The edit that puts back. */
  lemma {:induction false} InsertBelowTo(g: Layout, f: Forest, rows: nat, x: PolNode, remember: bool, bits: int, h: nat,
                                         p: nat, u: nat, d: nat, node: PolNode, right: bool, full: bool, y: Tree)
    requires g.m == Pow2(rows) && ForestOk(g, f) && Leads(g, bits, h, p, u) && Kids(x, At(g, f, p)) && !At(g, f, u).Nil?
    requires Inserting(g, u, d, node, right, y)
    ensures h > 0 && p in g.nodes && Valid(rows, p) && Valid(rows, d)
    ensures EditedTo(InsertBelow(x, remember, bits, h, node, right, full), InsertAt(rows, p, At(g, f, p), d, y))
    decreases h
  {
    hide IsAncestor, At, Layout.WellShaped, Above, Layout.IsRoot, Kids, Holds, EditedTo, Leads, ForestOk, InsertAt,
         Digit, Niece, InsertBelow, Pow2, Inserting, Sibling;
    OkShape(g, f);
    LeadsParts(g, bits, h, p, u);
    LeadsAbove(g, bits, h, p, u);
    g.NonRootFacts(u);
    g.NodeBound(p);
    NodeAbove(g, f, u, p);
    var turn := Digit(bits, h - 1);
    if h == 1 {
      SameSide(g, p, u, turn);
      InsertLast(g, f, rows, x, remember, bits, p, u, d, node, right, full, y);
    } else {
      var c := OnSide(g, p, 1 - turn);
      HeldPair(g, f, x, p, turn);
      LeadsAbove(g, bits, h - 1, c, u);
      HoldsKids(Niece(x, turn), At(g, f, OnSide(g, p, turn)), At(g, f, c));
      InsertBelowTo(g, f, rows, Niece(x, turn), RememberOf(Niece(x, 1 - turn)), bits, h - 1, c, u, d, node, right,
                    full, y);
      BelowInserted(g, c, u, d, node, right, y);
      InsertStep(g, f, rows, x, remember, bits, h, p, d, node, right, full, y);
    }
  }

  lemma {:induction false} BelowInserted(g: Layout, c: nat, u: nat, d: nat, node: PolNode, right: bool, y: Tree)
    requires g.WellShaped() && c in g.nodes && Above(g, c, u) && Inserting(g, u, d, node, right, y)
    ensures d in g.nodes && Above(g, c, d)
  {
    hide Above, Layout.WellShaped, IsRootNode;
    g.NodeBound(d);
    AboveTrans(g, c, d);
  }

  lemma {:induction false} InsertLast(g: Layout, f: Forest, rows: nat, x: PolNode, remember: bool, bits: int, p: nat,
                                      u: nat, d: nat, node: PolNode, right: bool, full: bool, y: Tree)
    requires g.m == Pow2(rows) && ForestOk(g, f) && p in g.nodes && At(g, f, p).Node? && Kids(x, At(g, f, p)) &&
             p >= g.m
    requires Inserting(g, u, d, node, right, y) && u == OnSide(g, p, Digit(bits, 0))
    ensures Valid(rows, p) && Valid(rows, d)
    ensures EditedTo(InsertBelow(x, remember, bits, 1, node, right, full), InsertAt(rows, p, At(g, f, p), d, y))
  {
    hide IsAncestor, At, Layout.WellShaped, Above, Layout.IsRoot, Kids, EditedTo, ForestOk, InsertAt, Digit, Niece,
         SideBySide;
    OkShape(g, f);
    var turn := Digit(bits, 0);
    var n, s, b := Niece(x, turn), Niece(x, 1 - turn), OnSide(g, p, 1 - turn);
    HeldPair(g, f, x, p, turn);
    NotRootBelow(g, d);
    g.NonRootFacts(d);
    UpAbove(g, d);
    InsertedFurther(g, f, rows, p, u, d, y);
    InsertedChild(g, rows, u, d, At(g, f, u), y);
    SideBySideTo(node, n, s, right, full, y, At(g, f, u));
    var pair, after := SideBySide(node, n, s, right, full), InsertAt(rows, u, At(g, f, u), d, y);
    EditedPair(s, n, pair, At(g, f, b), At(g, f, u), after);
    PlacedTo(turn, WithData(n, pair.data, pair.remember), WithNieces(s, pair.l, pair.r), remember, after, At(g, f, b));
  }

  lemma {:induction false} InsertStep(g: Layout, f: Forest, rows: nat, x: PolNode, remember: bool, bits: int, h: nat,
                                      p: nat, d: nat, node: PolNode, right: bool, full: bool, y: Tree)
    requires g.m == Pow2(rows) && ForestOk(g, f) && p in g.nodes && At(g, f, p).Node? && Kids(x, At(g, f, p)) &&
             h > 1 && p >= g.m
    requires d in g.nodes && Above(g, OnSide(g, p, 1 - Digit(bits, h - 1)), d) && Valid(rows, d)
    requires var turn := Digit(bits, h - 1); var c := OnSide(g, p, 1 - turn);
             && c in g.nodes && Valid(rows, c)
             && EditedTo(InsertBelow(Niece(x, turn), RememberOf(Niece(x, 1 - turn)), bits, h - 1, node, right, full),
                         InsertAt(rows, c, At(g, f, c), d, y))
    ensures Valid(rows, p) && EditedTo(InsertBelow(x, remember, bits, h, node, right, full),
                                       InsertAt(rows, p, At(g, f, p), d, y))
  {
    hide IsAncestor, At, Layout.WellShaped, Above, Layout.IsRoot, Kids, Holds, EditedTo, ForestOk, InsertAt, Digit,
         Niece, SideBySide;
    var turn := Digit(bits, h - 1);
    var n, s, c, b := Niece(x, turn), Niece(x, 1 - turn), OnSide(g, p, 1 - turn), OnSide(g, p, turn);
    HeldPair(g, f, x, p, turn);
    InsertedFurther(g, f, rows, p, c, d, y);
    var below, after := InsertBelow(n, RememberOf(s), bits, h - 1, node, right, full),
        InsertAt(rows, c, At(g, f, c), d, y);
    EditedPair(n, s, below, At(g, f, b), At(g, f, c), after);
    PlacedTo(turn, WithNieces(n, below.l, below.r), WithData(s, below.data, below.remember), remember, At(g, f, b),
             after);
  }
}
