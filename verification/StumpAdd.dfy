/** Adding leaves to the roots of a stump. */
module StumpAdd {
  import opened Hashes
  import opened Options
  import opened Positions
  import opened Geometry
  import opened Layouts
  import opened Entries
  import opened Forests
  import opened Deletion
  import opened Slots
  import opened Additions
  import opened Growth
  import opened Destroyed
  import opened Carry
  import opened Stumps

  /** The entry has the hash the forest has there. */
  ghost predicate TrueEntry(g: Layout, slots: seq<Hash>, e: Entry) {
    var t := At(g, ForestOf(g, slots), e.pos);
    !t.Nil? && e.hash == Merkle(t)
  }

  ghost predicate AllTrue(g: Layout, slots: seq<Hash>, s: seq<Entry>) {
    forall e :: e in s ==> TrueEntry(g, slots, e)
  }

  /** The entry of an upper node, at its place after the addition. */
  ghost function NodeEntry(o: Layout, g: Layout, slots: seq<Hash>, v: nat): Entry {
    Entry(NewPos(g, WrittenOver(o, g, slots), v), Merkle(Collapse(g, slots, v)))
  }

  /** The nodes made and the roots used up to row `h` are in the list. */
  ghost predicate Covers(o: Layout, g: Layout, slots: seq<Hash>, rows: nat, n: nat, h: nat, all: seq<Entry>) {
    && (forall v: nat :: ChainNode(rows, n, v) && Row(rows, v) <= h ==> NodeEntry(o, g, slots, v) in all)
    && (forall v: nat :: PoppedRoot(rows, n, v) && Row(rows, v) < h && !Collapse(g, slots, v).Nil? ==>
          NodeEntry(o, g, slots, v) in all)
  }

  /** The entry is that of a node made, or of a root used, when one leaf is added to `n` leaves. */
  ghost predicate FromNode(o: Layout, g: Layout, slots: seq<Hash>, rows: nat, n: nat, v: nat, e: Entry) {
    && InForest(rows, n + 1, v) && (ChainNode(rows, n, v) || PoppedRoot(rows, n, v)) && Upper(o, g, v) &&
       !Collapse(g, slots, v).Nil?
    && e == NodeEntry(o, g, slots, v)
  }

  ghost predicate FromNodes(o: Layout, g: Layout, slots: seq<Hash>, rows: nat, n: nat, s: seq<Entry>) {
    forall e :: e in s ==> exists v: nat :: FromNode(o, g, slots, rows, n, v, e)
  }

  lemma {:induction false} NodeEntryTrue(o: Layout, g: Layout, before: seq<Hash>, adds: seq<Hash>, v: nat)
    requires Grows(o, g, before, adds) && Upper(o, g, v) && !Collapse(g, before + adds, v).Nil?
    ensures TrueEntry(g, before + adds, NodeEntry(o, g, before + adds, v))
  {
    hide At, ForestOf, Collapse, NewPos, WrittenOver;
    UpperPlace(o, g, before, adds, v);
  }

  /** The state of the carry on row `h`. */
  ghost predicate AtCarry(o: Layout, g: Layout, before: seq<Hash>, adds: seq<Hash>, rows: nat, h: nat, c: nat,
                          roots: seq<Hash>, pos: nat, newRoot: Hash, sub: seq<Entry>)
  {
    var slots := before + adds;
    && InChain(o, g, rows, |before|, h, c)
    && roots == MerkleAll(RootTrees(before, h))
    && Entry(pos, newRoot) == NodeEntry(o, g, slots, c)
    && Sorted(sub) && AllTrue(g, slots, sub) && FromNodes(o, g, slots, rows, |before|, sub)
    && (forall i :: 0 <= i < |sub| ==> sub[i].pos < LeftSib(pos))
    && Covers(o, g, slots, rows, |before|, h, sub + [Entry(pos, newRoot)])
  }

  lemma {:induction false} CarryBegins(o: Layout, g: Layout, before: seq<Hash>, adds: seq<Hash>, rows: nat,
                                       roots: seq<Hash>, pos: nat)
    requires Adding(o, g, before, adds, rows) && |adds| > 0 && roots == RootHashes(before)
    requires pos == NewPos(g, WrittenOver(o, g, before + adds), |before|)
    ensures AtCarry(o, g, before, adds, rows, 0, |before|, roots, pos, adds[0], [])
  {
    hide NewPos, WrittenOver, RootTrees, Row, Offset, IsRoot;
    var n, slots := |before|, before + adds;
    ChainStart(o, g, before, adds, rows);
    assert Collapse(g, slots, n) == Leaf(adds[0]);
    forall v: nat | ChainNode(rows, n, v) && Row(rows, v) <= 0
      ensures NodeEntry(o, g, slots, v) in [Entry(pos, adds[0])]
    {
      ChainUnique(o, g, before, adds, rows, 0, n, v);
    }
  }

  /** One row of the carry. */
  lemma {:induction false} CarryRow(o: Layout, g: Layout, before: seq<Hash>, adds: seq<Hash>, rows: nat, h: nat, c: nat,
                                    roots: seq<Hash>, pos: nat, newRoot: Hash, sub: seq<Entry>)
    requires Adding(o, g, before, adds, rows) && |adds| > 0
    requires AtCarry(o, g, before, adds, rows, h, c, roots, pos, newRoot, sub) && Shr(|before|, h) % 2 == 1
    ensures |roots| > 0
    ensures var root, rest := roots[|roots| - 1], roots[..|roots| - 1];
            if root == Empty then AtCarry(o, g, before, adds, rows, h + 1, g.Up(c), rest, pos, newRoot, sub)
            else AtCarry(o, g, before, adds, rows, h + 1, g.Up(c), rest, g.Up(pos), ParentHash(root, newRoot),
                         sub + [Entry(LeftSib(pos), root), Entry(pos, newRoot)])
  {
    hide NewPos, WrittenOver, RootTrees, Row, Offset, InForest, IsRoot, Collapse, At, ForestOf, LayoutFor, InChain,
         Block, ChainNode, PoppedRoot, Merkle, Layout.WellShaped, Covers;
    var n, slots, u, s := |before|, before + adds, g.Up(c), c - 1;
    GrowsFor(rows, before, adds, o, g);
    GrowsShaped(o, g, before, adds);
    ChainNodes(o, g, rows, n, h, c);
    RootTreesStep(before, h);
    ChainUp(o, g, before, adds, rows, h, c);
    ChainPlaces(o, g, before, adds, c);
    ChainHash(o, g, before, adds, c);
    var root, rest := roots[|roots| - 1], roots[..|roots| - 1];
    if root == Empty {
      CoversUp(o, g, before, adds, rows, h, c, sub + [Entry(pos, newRoot)], sub + [Entry(pos, newRoot)]);
    } else {
      var sub' := sub + [Entry(LeftSib(pos), root), Entry(pos, newRoot)];
      NodeEntryTrue(o, g, before, adds, s);
      NodeEntryTrue(o, g, before, adds, c);
      ChainInForest(o, g, before, adds, rows, h, c);
      RootUsed(o, g, before, adds, rows, h, c);
      assert FromNode(o, g, slots, rows, n, s, Entry(LeftSib(pos), root));
      assert FromNode(o, g, slots, rows, n, c, Entry(pos, newRoot));
      var q := NewPos(g, WrittenOver(o, g, slots), u);
      g.ChildFacts(q);
      SubSorted(g, sub, pos, root, newRoot);
      CoversUp(o, g, before, adds, rows, h, c, sub + [Entry(pos, newRoot)],
               sub' + [Entry(g.Up(pos), ParentHash(root, newRoot))]);
    }
  }

  lemma {:induction false} ChainInForest(o: Layout, g: Layout, before: seq<Hash>, adds: seq<Hash>, rows: nat, h: nat,
                                         c: nat)
    requires Adding(o, g, before, adds, rows) && InChain(o, g, rows, |before|, h, c)
    ensures InForest(rows, |before| + 1, c) && ChainNode(rows, |before|, c)
    ensures c > 0 && o.IsRoot(c - 1) ==> InForest(rows, |before| + 1, c - 1)
  {
    hide Row, Offset;
    CarryShr(|before|, h);
    ChainNodes(o, g, rows, |before|, h, c);
    LayoutAt(o, rows, |before|, c);
    if c > 0 && o.IsRoot(c - 1) {
      LayoutAt(o, rows, |before|, c - 1);
      InLarger(rows, |before|, |before| + 1, c - 1);
    }
  }

  /** The root beside the chain is used. */
  lemma {:induction false} RootUsed(o: Layout, g: Layout, before: seq<Hash>, adds: seq<Hash>, rows: nat, h: nat, c: nat)
    requires Adding(o, g, before, adds, rows) && InChain(o, g, rows, |before|, h + 1, g.Up(c)) && c % 2 == 1
    requires o.IsRoot(c - 1)
    ensures PoppedRoot(rows, |before|, c - 1)
  {
    hide Row, Offset, InForest, InChain;
    ChainInForest(o, g, before, adds, rows, h + 1, g.Up(c));
    LayoutAt(o, rows, |before|, c - 1);
  }

  lemma ChainNodes(o: Layout, g: Layout, rows: nat, n: nat, h: nat, c: nat)
    requires InChain(o, g, rows, n, h, c)
    ensures c in g.nodes && c !in o.nodes
  {
  }

  lemma {:induction false} SubSorted(g: Layout, sub: seq<Entry>, pos: nat, root: Hash, newRoot: Hash)
    requires Sorted(sub) && pos % 2 == 1 && g.Up(pos) > pos
    requires forall i :: 0 <= i < |sub| ==> sub[i].pos < LeftSib(pos)
    ensures var s := sub + [Entry(LeftSib(pos), root), Entry(pos, newRoot)];
            Sorted(s) && forall i :: 0 <= i < |s| ==> s[i].pos < LeftSib(g.Up(pos))
  {
  }

  /** The hash of a parent on the chain. */
  lemma {:induction false} ChainHash(o: Layout, g: Layout, before: seq<Hash>, adds: seq<Hash>, c: nat)
    requires Grows(o, g, before, adds) && c > 0 && c - 1 in g.nodes && c in g.nodes && g.Up(c) in g.nodes
    requires var slots := before + adds;
             !Collapse(g, slots, c).Nil? && Collapse(g, slots, g.Up(c)) ==
                 Join(Collapse(g, slots, c - 1), Collapse(g, slots, c))
    ensures var slots := before + adds;
            && (Merkle(Collapse(g, slots, c - 1)) == Empty <==> Collapse(g, slots, c - 1).Nil?)
            && Merkle(Collapse(g, slots, g.Up(c))) ==
               if Collapse(g, slots, c - 1).Nil? then Merkle(Collapse(g, slots, c))
               else ParentHash(Merkle(Collapse(g, slots, c - 1)), Merkle(Collapse(g, slots, c)))
  {
    GrowsShaped(o, g, before, adds);
    CollapseFits(g, before + adds, c - 1);
    MerkleEmpty(Collapse(g, before + adds, c - 1));
  }

  lemma {:induction false} CoversUp(o: Layout, g: Layout, before: seq<Hash>, adds: seq<Hash>, rows: nat, h: nat, c: nat,
                                    all: seq<Entry>, all': seq<Entry>)
    requires Adding(o, g, before, adds, rows) && |adds| > 0 && InChain(o, g, rows, |before|, h, c)
    requires InChain(o, g, rows, |before|, h + 1, g.Up(c))
    requires c % 2 == 1 && o.IsRoot(c - 1) && Valid(rows, c - 1) && Row(rows, c - 1) == h
    requires Covers(o, g, before + adds, rows, |before|, h, all)
    requires forall e :: e in all ==> e in all'
    requires NodeEntry(o, g, before + adds, g.Up(c)) in all'
    requires !Collapse(g, before + adds, c - 1).Nil? ==> NodeEntry(o, g, before + adds, c - 1) in all'
    ensures Covers(o, g, before + adds, rows, |before|, h + 1, all')
  {
    hide NewPos, WrittenOver, Row, Offset, Collapse, LayoutFor, InChain, NodeEntry;
    var n, slots := |before|, before + adds;
    forall v: nat | ChainNode(rows, n, v) && Row(rows, v) <= h + 1
      ensures NodeEntry(o, g, slots, v) in all'
    {
      ChainUnique(o, g, before, adds, rows, h + 1, g.Up(c), v);
    }
    forall v: nat | PoppedRoot(rows, n, v) && Row(rows, v) < h + 1 && !Collapse(g, slots, v).Nil?
      ensures NodeEntry(o, g, slots, v) in all'
    {
      ChainUnique(o, g, before, adds, rows, h, c, v);
    }
  }

  /** The nodes made and the roots used by adding the first leaf. */
  ghost predicate SubTree(o: Layout, g: Layout, before: seq<Hash>, adds: seq<Hash>, rows: nat, sub: seq<Entry>) {
    && Sorted(sub) && AllTrue(g, before + adds, sub) && FromNodes(o, g, before + adds, rows, |before|, sub)
    && (forall v: nat :: ChainNode(rows, |before|, v) ==> NodeEntry(o, g, before + adds, v) in sub)
    && (forall v: nat :: PoppedRoot(rows, |before|, v) && !Collapse(g, before + adds, v).Nil? ==>
          NodeEntry(o, g, before + adds, v) in sub)
    && (|before| % 2 == 0 ==> sub == [NodeEntry(o, g, before + adds, |before|)])
  }

  /** Add one leaf: the roots after, and the nodes made on the way. */
  method AddOne(roots0: seq<Hash>, numLeaves: nat, add: Hash, pos0: nat, afterRows: nat, ghost before: seq<Hash>,
                ghost adds: seq<Hash>, ghost o: Layout, ghost g: Layout)
    returns (roots: seq<Hash>, sub: seq<Entry>)
    requires |before| == numLeaves && |adds| > 0 && add == adds[0] && roots0 == RootHashes(before)
    requires Adding(o, g, before, adds, afterRows)
    requires pos0 == NewPos(g, WrittenOver(o, g, before + adds), numLeaves)
    ensures roots == RootHashes(before + [add])
    ensures SubTree(o, g, before, adds, afterRows, sub)
  {
    hide LayoutFor, AtCarry, RootTrees, NewPos, WrittenOver, SubTree, Shr;
    LayoutFits(g, afterRows, numLeaves + |adds|);
    roots := roots0;
    var pos, newRoot := pos0, add;
    sub := [];
    var h := 0;
    ghost var c := numLeaves;
    CarryBegins(o, g, before, adds, afterRows, roots, pos);
    while RootExistsOnRow(numLeaves, h)
      invariant AtCarry(o, g, before, adds, afterRows, h, c, roots, pos, newRoot, sub)
      invariant h == 0 ==> sub == [] && pos == pos0 && newRoot == add
      decreases Shr(numLeaves, h)
    {
      CarryRow(o, g, before, adds, afterRows, h, c, roots, pos, newRoot, sub);
      ShrDecreases(numLeaves, h);
      var root := roots[|roots| - 1];
      roots := roots[..|roots| - 1];
      if root != Empty {
        sub := sub + [Entry(LeftSib(pos), root), Entry(pos, newRoot)];
        newRoot := ParentHash(root, newRoot);
        pos := Parent(afterRows, pos);
      }
      c := g.Up(c);
      h := h + 1;
    }
    CarryEnds(o, g, before, adds, afterRows, h, c, roots, pos, newRoot, sub);
    sub := sub + [Entry(pos, newRoot)];
    roots := roots + [newRoot];
  }

  lemma {:induction false} CarryEnds(o: Layout, g: Layout, before: seq<Hash>, adds: seq<Hash>, rows: nat, h: nat,
                                     c: nat, roots: seq<Hash>, pos: nat, newRoot: Hash, sub: seq<Entry>)
    requires Adding(o, g, before, adds, rows) && |adds| > 0
    requires AtCarry(o, g, before, adds, rows, h, c, roots, pos, newRoot, sub) && Shr(|before|, h) % 2 == 0
    requires h == 0 ==> sub == [] && pos == NewPos(g, WrittenOver(o, g, before + adds), |before|) && newRoot == adds[0]
    ensures roots + [newRoot] == RootHashes(before + [adds[0]])
    ensures SubTree(o, g, before, adds, rows, sub + [Entry(pos, newRoot)])
  {
    hide NewPos, WrittenOver, RootTrees, Row, Offset, Collapse, At, ForestOf, LayoutFor, Block, Merkle,
         Layout.WellShaped, Pow2, Shr;
    var n, slots, all := |before|, before + adds, sub + [Entry(pos, newRoot)];
    GrowsFor(rows, before, adds, o, g);
    GrowsShaped(o, g, before, adds);
    LayoutFits(g, rows, n + |adds|);
    CarryRoots(before, adds[0], h);
    g.NodeBound(c);
    CollapseBlock(g, rows, slots, c);
    assert slots == (before + [adds[0]]) + adds[1..];
    CarryShr(n, h);
    BlockPrefix(before + [adds[0]], adds[1..], h, Shr(n, h));
    NewNotEmpty(o, g, before, adds, c);
    NodeEntryTrue(o, g, before, adds, c);
    ChainInForest(o, g, before, adds, rows, h, c);
    assert FromNode(o, g, slots, rows, n, c, Entry(pos, newRoot));
    forall v: nat
      ensures ChainNode(rows, n, v) ==> NodeEntry(o, g, slots, v) in all
      ensures PoppedRoot(rows, n, v) && !Collapse(g, slots, v).Nil? ==> NodeEntry(o, g, slots, v) in all
    {
      ChainEnds(rows, n, h, v);
    }
    if n % 2 == 0 {
      EvenStops(n, h);
      ChainStart(o, g, before, adds, rows);
      SamePlace(rows, c, n);
    }
  }

  lemma EvenStops(n: nat, h: nat)
    requires n % 2 == 0 && AllOnes(n, h)
    ensures h == 0 && Shr(n, 0) == n
  {
    assert Shr(n, 0) == n;
  }
}
