/** What an addition to the stump reports. */
module UpdateData {
  import opened Hashes
  import opened Positions
  import opened Geometry
  import opened Layouts
  import opened Entries
  import opened Forests
  import opened Deletion
  import opened Sequential
  import opened Slots
  import opened Uniqueness
  import opened Additions
  import opened Growth
  import opened Destroyed
  import opened Carry
  import opened StumpAdd

  /** The nodes reported by the `j`-th leaf added. */
  ghost predicate SubTreeAt(g: Layout, before: seq<Hash>, adds: seq<Hash>, rows: nat, j: nat, sub: seq<Entry>)
    requires j < |adds|
  {
    SubTree(LayoutOf(rows, |before| + j), g, before + adds[..j], adds[j..], rows, sub)
  }

  /** Leaves to be added, to slots that can be told apart. */
  ghost predicate Addable(g: Layout, before: seq<Hash>, adds: seq<Hash>, rows: nat) {
    && LayoutFor(g, rows, |before| + |adds|) && GoodSlots(before + adds) && CollisionFree()
    && forall i :: 0 <= i < |adds| ==> adds[i] != Empty
  }

  lemma LayoutUnique(g: Layout, rows: nat, n: nat)
    requires LayoutFor(g, rows, n)
    ensures g == LayoutOf(rows, n)
  {
    forall p
      ensures p in g.nodes <==> p in LayoutOf(rows, n).nodes
    {
      LayoutAt(g, rows, n, p);
    }
  }

  lemma {:induction false} Midway(g: Layout, before: seq<Hash>, adds: seq<Hash>, rows: nat, j: nat)
    requires LayoutFor(g, rows, |before| + |adds|) && j < |adds|
    requires forall i :: 0 <= i < |adds| ==> adds[i] != Empty
    ensures (before + adds[..j]) + adds[j..] == before + adds
    ensures Adding(LayoutOf(rows, |before| + j), g, before + adds[..j], adds[j..], rows)
    ensures Grows(LayoutOf(rows, |before| + j), g, before + adds[..j], adds[j..])
  {
    hide LayoutFor, LayoutOf, Grows;
    LayoutFits(g, rows, |before| + |adds|);
    LayoutOfFacts(rows, |before| + j);
    GrowsFor(rows, before + adds[..j], adds[j..], LayoutOf(rows, |before| + j), g);
  }

  /** The same tree is reported at the same place, whichever leaf reports it. */
  lemma {:induction false} SameEntry(g: Layout, before: seq<Hash>, adds: seq<Hash>, rows: nat, i: nat, j: nat, v: nat)
    requires Addable(g, before, adds, rows) && i < |adds| && j < |adds|
    requires Upper(LayoutOf(rows, |before| + i), g, v) && Upper(LayoutOf(rows, |before| + j), g, v)
    requires !Collapse(g, before + adds, v).Nil?
    ensures NodeEntry(LayoutOf(rows, |before| + i), g, before + adds, v) ==
            NodeEntry(LayoutOf(rows, |before| + j), g, before + adds, v)
  {
    hide LayoutFor, LayoutOf, Collapse, NewPos, WrittenOver, At, ForestOf, Grows, GoodSlots, CollisionFree,
         Layout.WellShaped;
    Midway(g, before, adds, rows, i);
    Midway(g, before, adds, rows, j);
    LayoutFits(g, rows, |before| + |adds|);
    UpperPlace(LayoutOf(rows, |before| + i), g, before + adds[..i], adds[i..], v);
    UpperPlace(LayoutOf(rows, |before| + j), g, before + adds[..j], adds[j..], v);
    OnePlace(g, before + adds,
             NewPos(g, WrittenOver(LayoutOf(rows, |before| + i), g, before + adds), v),
             NewPos(g, WrittenOver(LayoutOf(rows, |before| + j), g, before + adds), v));
  }

  /** What is reported when the number of leaves is even is reported again by the next. */
  lemma {:induction false} EvenIncluded(g: Layout, before: seq<Hash>, adds: seq<Hash>, rows: nat, j: nat,
                                        sub: seq<Entry>, next: seq<Entry>)
    requires Addable(g, before, adds, rows) && j + 1 < |adds| && (|before| + j) % 2 == 0
    requires SubTreeAt(g, before, adds, rows, j, sub) && SubTreeAt(g, before, adds, rows, j + 1, next)
    ensures forall e :: e in sub ==> e in next
  {
    hide LayoutFor, Collapse, NewPos, WrittenOver, GoodSlots, CollisionFree, Layout.WellShaped, Grows, AllTrue,
         FromNodes, LayoutOf, InForest, IsRoot, Shr;
    var n, k := |before| + j, |before| + |adds|;
    Midway(g, before, adds, rows, j);
    Midway(g, before, adds, rows, j + 1);
    LayoutFits(g, rows, k);
    LeafRoot(rows, n, k);
    LayoutOfFacts(rows, n);
    LayoutOfFacts(rows, n + 1);
    LayoutAt(LayoutOf(rows, n), rows, n, n);
    LayoutAt(LayoutOf(rows, n + 1), rows, n + 1, n);
    LayoutAt(g, rows, k, n);
    NewNotEmpty(LayoutOf(rows, n), g, before + adds[..j], adds[j..], n);
    SameEntry(g, before, adds, rows, j, j + 1, n);
  }

  lemma {:induction false} LeafRoot(rows: nat, n: nat, k: nat)
    requires n + 1 < k <= Pow2(rows) && n % 2 == 0
    ensures Valid(rows, n) && !InForest(rows, n, n) && InForest(rows, k, n)
    ensures IsRoot(rows, n + 1, n) && PoppedRoot(rows, n + 1, n)
  {
    assert Row(rows, n) == 0 && Offset(rows, n) == n;
    assert Shr(n, 0) == n && Shr(n + 1, 0) == n + 1 && Shr(n + 2, 0) == n + 2 && Shr(k, 0) == k;
    RootIff(rows, n + 1, n);
    RootIff(rows, n + 2, n);
  }

  /** A position below a node is a node. */
  lemma {:induction false} BelowNode(g: Layout, a: nat, x: nat)
    requires g.WellShaped() && a in g.nodes && AtOrAbove(g, a, x)
    ensures x in g.nodes
    decreases a
  {
    if a != x {
      AboveBounds(g, a, x);
      BelowChild(g, a, x);
      g.ChildFacts(a);
      BelowNode(g, if AtOrAbove(g, g.Left(a), x) then g.Left(a) else g.Right(a), x);
    }
  }

  /** When the number of leaves is odd, the next leaf reports only itself, and it was not
      reported before. */
  lemma {:induction false} OddApart(g: Layout, before: seq<Hash>, adds: seq<Hash>, rows: nat, j: nat, sub: seq<Entry>,
                                    next: seq<Entry>, e: Entry, e': Entry)
    requires Addable(g, before, adds, rows) && j + 1 < |adds| && (|before| + j) % 2 == 1
    requires SubTreeAt(g, before, adds, rows, j, sub) && SubTreeAt(g, before, adds, rows, j + 1, next)
    requires e in sub && e' in next
    ensures e.hash != e'.hash
  {
    hide LayoutFor, Collapse, NewPos, WrittenOver, GoodSlots, CollisionFree, Layout.WellShaped, Grows, LayoutOf,
         InForest, Merkle, LeafSet, SubTree, Upper, AtOrAbove;
    var n, k, slots := |before| + j, |before| + |adds|, before + adds;
    Midway(g, before, adds, rows, j);
    Midway(g, before, adds, rows, j + 1);
    LayoutFits(g, rows, k);
    var x := n + 1;
    OnlyItself(LayoutOf(rows, n + 1), g, before + adds[..j + 1], adds[j + 1..], rows, next, e');
    var v := ReportedFrom(LayoutOf(rows, n), g, before + adds[..j], adds[j..], rows, sub, e);
    if e.hash == e'.hash {
      CollapseLeafHashes(g, slots, v);
      CollapseLeafHashes(g, slots, x);
      MerkleInjective(Collapse(g, slots, v), Collapse(g, slots, x));
      ApartFromNew(g, rows, n + 1, k, v, x);
      DisjointBlocks(g, slots, v, x);
      CollapseFits(g, slots, v);
      LeafSetEmpty(Collapse(g, slots, v));
    }
  }

  /** When the number of leaves is even, the leaf reports itself. */
  lemma OnlyItself(o: Layout, g: Layout, before: seq<Hash>, adds: seq<Hash>, rows: nat, sub: seq<Entry>, e: Entry)
    requires SubTree(o, g, before, adds, rows, sub) && |before| % 2 == 0 && e in sub
    ensures e == NodeEntry(o, g, before + adds, |before|)
  {
    hide AllTrue, FromNodes, NodeEntry, Sorted, Collapse;
  }

  lemma ReportedFrom(o: Layout, g: Layout, before: seq<Hash>, adds: seq<Hash>, rows: nat, sub: seq<Entry>, e: Entry)
    returns (v: nat)
    requires SubTree(o, g, before, adds, rows, sub) && e in sub
    ensures FromNode(o, g, before + adds, rows, |before|, v, e)
  {
    hide AllTrue, FromNode, NodeEntry, Sorted, Collapse;
    v :| FromNode(o, g, before + adds, rows, |before|, v, e);
  }

  lemma {:induction false} ApartFromNew(g: Layout, rows: nat, n: nat, k: nat, v: nat, x: nat)
    requires LayoutFor(g, rows, k) && n < k && x == n && InForest(rows, n, v)
    ensures v in g.nodes && x in g.nodes && !AtOrAbove(g, v, x) && !AtOrAbove(g, x, v)
  {
    hide InForest;
    LayoutFits(g, rows, k);
    var l := LayoutOf(rows, n);
    LayoutOfFacts(rows, n);
    LayoutAt(l, rows, n, v);
    LeafNode(l, rows, n, x);
    LeafNode(g, rows, k, x);
    InLarger(rows, n, k, v);
    LayoutAt(g, rows, k, v);
    if AtOrAbove(g, v, x) {
      if v != x { SameAbove(l, g, v, x); }
      BelowNode(l, v, x);
    }
    if Above(g, x, v) { AboveBounds(g, x, v); }
  }

  /** The entries whose hash is one of the given. */
  function HashSubset(a: seq<Entry>, hashes: seq<Hash>): (r: seq<Entry>) {
    if |a| == 0 then []
    else if a[0].hash in hashes then [a[0]] + HashSubset(a[1..], hashes)
    else HashSubset(a[1..], hashes)
  }

  lemma {:induction false} HashSubsetFacts(a: seq<Entry>, hashes: seq<Hash>)
    ensures forall e :: e in HashSubset(a, hashes) <==> e in a && e.hash in hashes
    ensures Sorted(a) ==> Sorted(HashSubset(a, hashes))
  {
    if |a| > 0 {
      var rest := HashSubset(a[1..], hashes);
      HashSubsetFacts(a[1..], hashes);
      assert a == [a[0]] + a[1..];
      SortedTail(a);
      if Sorted(a) { SortedCons(a[0], rest); }
    }
  }

  lemma SortedTail(a: seq<Entry>)
    requires |a| > 0
    ensures Sorted(a) ==> Sorted(a[1..]) && forall e :: e in a[1..] ==> a[0].pos < e.pos
  {
  }

  method GetHashSubset(a: seq<Entry>, hashes: seq<Hash>) returns (c: seq<Entry>)
    ensures c == HashSubset(a, hashes)
    ensures forall e :: e in c <==> e in a && e.hash in hashes
    ensures Sorted(a) ==> Sorted(c)
  {
    c := [];
    for i := 0 to |a|
      invariant c + HashSubset(a[i..], hashes) == HashSubset(a, hashes)
    {
      ghost var c0 := c;
      assert a[i..][1..] == a[i + 1..] && a[i..][0] == a[i];
      if a[i].hash in hashes {
        c := c + [a[i]];
        Regroup(c0, a[i], HashSubset(a[i + 1..], hashes));
      }
    }
    HashSubsetFacts(a, hashes);
  }

  ghost predicate AllSubTrees(g: Layout, before: seq<Hash>, adds: seq<Hash>, rows: nat, subTrees: seq<seq<Entry>>) {
    |subTrees| == |adds| && forall j :: 0 <= j < |adds| ==> SubTreeAt(g, before, adds, rows, j, subTrees[j])
  }

  /** Everything of a list is in another. */
  ghost predicate Within(a: seq<Entry>, b: seq<Entry>) {
    forall e :: e in a ==> e in b
  }

  /** The lists seen so far are merged, but for one that the next list contains. */
  ghost predicate MergedUpTo(n: nat, subTrees: seq<seq<Entry>>, i: nat, updated: seq<Entry>) {
    forall j :: 0 <= j < i && j < |subTrees| ==>
      Within(subTrees[j], updated) || (j == i - 1 && i < |subTrees| && (n + j) % 2 == 0 &&
                                       Within(subTrees[j], subTrees[i]))
  }

  /** Some leaf reported the entry. */
  ghost predicate Among(subTrees: seq<seq<Entry>>, e: Entry) {
    exists j :: 0 <= j < |subTrees| && e in subTrees[j]
  }

  lemma AllAmong(subTrees: seq<seq<Entry>>, j: nat)
    requires j < |subTrees|
    ensures forall e :: e in subTrees[j] ==> Among(subTrees, e)
  {
  }

  /** Merge what the leaves reported, leaving out what the next leaf reports again. */
  method MergeSubTrees(subTrees: seq<seq<Entry>>, ghost g: Layout, ghost before: seq<Hash>, ghost adds: seq<Hash>,
                       ghost rows: nat)
    returns (updated: seq<Entry>)
    requires forall j :: 0 <= j < |subTrees| ==> Sorted(subTrees[j])
    ensures Sorted(updated)
    ensures forall e :: e in updated ==> Among(subTrees, e)
    ensures Addable(g, before, adds, rows) && AllSubTrees(g, before, adds, rows, subTrees) ==>
              AllTrue(g, before + adds, updated) && forall j :: 0 <= j < |subTrees| ==> Within(subTrees[j], updated)
  {
    hide Addable, SubTreeAt, TrueEntry, Within, HashSubset, Among;
    ghost var told := Addable(g, before, adds, rows) && AllSubTrees(g, before, adds, rows, subTrees);
    updated := [];
    for i := 0 to |subTrees|
      invariant Sorted(updated) && forall e :: e in updated ==> Among(subTrees, e)
      invariant told ==> AllTrue(g, before + adds, updated) && MergedUpTo(|before|, subTrees, i, updated)
    {
      ghost var updated0 := updated;
      var subTree := subTrees[i];
      if i + 1 < |subTrees| {
        var duplicates := GetHashSubset(subTree, HashesOf(subTrees[i + 1]));
        if |duplicates| > 0 {
          if told {
            DuplicatesEven(g, before, adds, rows, i, subTree, subTrees[i + 1]);
            SkipOne(|before|, subTrees, i, updated);
          }
          continue;
        }
      }
      AllAmong(subTrees, i);
      updated := MergeSorted(updated, subTree);
      if told {
        SubTreeFacts(g, before, adds, rows, i, subTree);
        MergeTrue(g, before + adds, updated0, subTree, updated);
        MergeOne(|before|, subTrees, i, updated0, updated);
      }
    }
  }

  lemma {:induction false} SubTreeFacts(g: Layout, before: seq<Hash>, adds: seq<Hash>, rows: nat, j: nat,
                                        sub: seq<Entry>)
    requires Addable(g, before, adds, rows) && j < |adds| && SubTreeAt(g, before, adds, rows, j, sub)
    ensures Sorted(sub) && AllTrue(g, before + adds, sub)
  {
    hide LayoutFor, GoodSlots, CollisionFree, LayoutOf, TrueEntry;
    Midway(g, before, adds, rows, j);
  }

  /** A common hash with the next list means that the next list contains this one. */
  lemma {:induction false} DuplicatesEven(g: Layout, before: seq<Hash>, adds: seq<Hash>, rows: nat, j: nat,
                                          sub: seq<Entry>, next: seq<Entry>)
    requires Addable(g, before, adds, rows) && j + 1 < |adds|
    requires SubTreeAt(g, before, adds, rows, j, sub) && SubTreeAt(g, before, adds, rows, j + 1, next)
    ensures |HashSubset(sub, HashesOf(next))| > 0 ==> (|before| + j) % 2 == 0 && Within(sub, next)
  {
    hide Addable, SubTreeAt;
    var dup := HashSubset(sub, HashesOf(next));
    HashSubsetFacts(sub, HashesOf(next));
    if (|before| + j) % 2 == 0 {
      EvenIncluded(g, before, adds, rows, j, sub, next);
    } else if |dup| > 0 {
      var e := dup[0];
      assert e in dup;
      var i :| 0 <= i < |next| && next[i].hash == e.hash;
      OddApart(g, before, adds, rows, j, sub, next, e, next[i]);
    }
  }

  lemma SkipOne(n: nat, subTrees: seq<seq<Entry>>, i: nat, updated: seq<Entry>)
    requires i + 1 < |subTrees| && MergedUpTo(n, subTrees, i, updated)
    requires (n + i) % 2 == 0 && Within(subTrees[i], subTrees[i + 1])
    ensures MergedUpTo(n, subTrees, i + 1, updated)
  {
  }

  /** Merging lists that are true of one forest leaves nothing out. */
  lemma {:induction false} MergeTrue(g: Layout, slots: seq<Hash>, a: seq<Entry>, b: seq<Entry>, c: seq<Entry>)
    requires AllTrue(g, slots, a) && AllTrue(g, slots, b)
    requires forall e :: e in c <==> e in a || (e in b && e.pos !in PositionsOf(a))
    ensures AllTrue(g, slots, c) && Within(a, c) && Within(b, c)
  {
    forall e | e in b
      ensures e in c
    {
      if e.pos in PositionsOf(a) {
        var i :| 0 <= i < |a| && PositionsOf(a)[i] == e.pos;
        assert a[i] in a;
        assert TrueEntry(g, slots, a[i]) && TrueEntry(g, slots, e);
      }
    }
  }

  lemma {:induction false} MergeOne(n: nat, subTrees: seq<seq<Entry>>, i: nat, updated0: seq<Entry>,
                                    updated: seq<Entry>)
    requires i < |subTrees| && MergedUpTo(n, subTrees, i, updated0)
    requires Within(updated0, updated) && Within(subTrees[i], updated)
    ensures MergedUpTo(n, subTrees, i + 1, updated)
  {
  }

  /** A node that is new, or a root that was used. */
  ghost predicate NewOrUsed(o: Layout, g: Layout, v: nat) {
    (v in g.nodes && v !in o.nodes) || (o.IsRoot(v) && v in g.nodes && !g.IsRoot(v))
  }

  /** Every new node and every root used, unless it is empty, is reported at its place. */
  ghost predicate Reported(o: Layout, g: Layout, slots: seq<Hash>, updated: seq<Entry>) {
    forall v: nat :: NewOrUsed(o, g, v) && !Collapse(g, slots, v).Nil? ==> NodeEntry(o, g, slots, v) in updated
  }

  /** The entry is that of a new node or of a root used. */
  ghost predicate IsReport(o: Layout, g: Layout, slots: seq<Hash>, v: nat, e: Entry) {
    NewOrUsed(o, g, v) && !Collapse(g, slots, v).Nil? && e == NodeEntry(o, g, slots, v)
  }

  /** Nothing else is reported. */
  ghost predicate OnlyReported(o: Layout, g: Layout, slots: seq<Hash>, updated: seq<Entry>) {
    forall e :: e in updated ==> exists v: nat :: IsReport(o, g, slots, v, e)
  }

  /** A node made or a root used by one of the leaves is new, or a root that is used. */
  lemma {:induction false} NewOrUsedBy(o: Layout, g: Layout, rows: nat, n: nat, j: nat, k: nat, v: nat)
    requires LayoutFor(o, rows, n) && LayoutFor(g, rows, k) && n <= j < k
    requires ChainNode(rows, j, v) || PoppedRoot(rows, j, v)
    ensures NewOrUsed(o, g, v)
  {
    hide InForest, Layout.WellShaped;
    LayoutAt(o, rows, n, v);
    LayoutAt(g, rows, k, v);
    var u := Parent(rows, v);
    InLargerOr(rows, n, j, v);
    if PoppedRoot(rows, j, v) {
      InLargerOr(rows, j, j + 1, v);
      InLargerOr(rows, j + 1, k, v);
      InLargerOr(rows, n, j, u);
      InLargerOr(rows, j + 1, k, u);
    } else {
      InLargerOr(rows, j + 1, k, v);
    }
  }

  lemma InLargerOr(rows: nat, n: nat, k: nat, v: nat)
    requires n <= k
    ensures InForest(rows, n, v) ==> InForest(rows, k, v)
  {
    if InForest(rows, n, v) { InLarger(rows, n, k, v); }
  }

  lemma {:induction false} ReportIs(o: Layout, g: Layout, before: seq<Hash>, adds: seq<Hash>, rows: nat, j: nat,
                                    sub: seq<Entry>, e: Entry)
    requires Addable(g, before, adds, rows) && LayoutFor(o, rows, |before|) && j < |adds|
    requires SubTreeAt(g, before, adds, rows, j, sub) && e in sub
    ensures exists v: nat :: IsReport(o, g, before + adds, v, e)
  {
    hide InForest, GoodSlots, CollisionFree, Layout.WellShaped, LayoutFor, LayoutOf, Collapse, WrittenOver, NewPos,
         Grows, SubTree, ChainNode, PoppedRoot, NewOrUsed;
    var n := |before| + j;
    Midway(g, before, adds, rows, j);
    Midway(g, before, adds, rows, 0);
    LayoutUnique(o, rows, |before|);
    var v := ReportedFrom(LayoutOf(rows, n), g, before + adds[..j], adds[j..], rows, sub, e);
    NewOrUsedBy(o, g, rows, |before|, n, |before| + |adds|, v);
    UsedIsUpper(o, g, v);
    SameEntry(g, before, adds, rows, j, 0, v);
    assert IsReport(o, g, before + adds, v, e);
  }

  lemma UsedIsUpper(o: Layout, g: Layout, v: nat)
    requires NewOrUsed(o, g, v)
    ensures Upper(o, g, v)
  {
  }

  lemma {:induction false} NothingElse(o: Layout, g: Layout, before: seq<Hash>, adds: seq<Hash>, rows: nat,
                                       subTrees: seq<seq<Entry>>, updated: seq<Entry>)
    requires Addable(g, before, adds, rows) && LayoutFor(o, rows, |before|)
    requires AllSubTrees(g, before, adds, rows, subTrees) && forall e :: e in updated ==> Among(subTrees, e)
    ensures OnlyReported(o, g, before + adds, updated)
  {
    hide Addable, LayoutFor, SubTreeAt, IsReport;
    forall e | e in updated
      ensures exists v: nat :: IsReport(o, g, before + adds, v, e)
    {
      assert Among(subTrees, e);
      var j :| 0 <= j < |subTrees| && e in subTrees[j];
      ReportIs(o, g, before, adds, rows, j, subTrees[j], e);
    }
  }

  /** A node that comes with the leaves comes with one of them. */
  lemma {:induction false} ComesWith(rows: nat, n: nat, k: nat, v: nat) returns (j: nat)
    requires n <= k && !InForest(rows, n, v) && InForest(rows, k, v)
    ensures n <= j < k && ChainNode(rows, j, v)
    decreases k - n
  {
    if InForest(rows, n + 1, v) {
      j := n;
    } else {
      j := ComesWith(rows, n + 1, k, v);
    }
  }

  lemma {:induction false} GoesWith(rows: nat, n: nat, k: nat, v: nat) returns (j: nat)
    requires n <= k && IsRoot(rows, n, v) && !IsRoot(rows, k, v)
    ensures n <= j < k && PoppedRoot(rows, j, v)
    decreases k - n
  {
    if !IsRoot(rows, n + 1, v) {
      j := n;
    } else {
      j := GoesWith(rows, n + 1, k, v);
    }
  }

  lemma {:induction false} AllReported(o: Layout, g: Layout, before: seq<Hash>, adds: seq<Hash>, rows: nat,
                                       subTrees: seq<seq<Entry>>, updated: seq<Entry>)
    requires Addable(g, before, adds, rows) && LayoutFor(o, rows, |before|)
    requires AllSubTrees(g, before, adds, rows, subTrees)
    requires forall j :: 0 <= j < |subTrees| ==> Within(subTrees[j], updated)
    ensures Reported(o, g, before + adds, updated)
  {
    hide Addable, LayoutFor, Collapse, Within, SubTreeAt;
    forall v: nat | NewOrUsed(o, g, v) && !Collapse(g, before + adds, v).Nil?
      ensures NodeEntry(o, g, before + adds, v) in updated
    {
      var j := ReportedBy(o, g, before, adds, rows, v);
      InSubTree(o, g, before, adds, rows, v, j, subTrees[j]);
      assert Within(subTrees[j], updated);
      WithinAt(subTrees[j], updated, NodeEntry(o, g, before + adds, v));
    }
  }

  lemma WithinAt(a: seq<Entry>, b: seq<Entry>, e: Entry)
    requires Within(a, b) && e in a
    ensures e in b
  {
  }

  /** The leaf that reports a node. */
  lemma {:induction false} ReportedBy(o: Layout, g: Layout, before: seq<Hash>, adds: seq<Hash>, rows: nat, v: nat)
    returns (j: nat)
    requires Addable(g, before, adds, rows) && LayoutFor(o, rows, |before|) && NewOrUsed(o, g, v)
    ensures j < |adds|
    ensures ChainNode(rows, |before| + j, v) || PoppedRoot(rows, |before| + j, v)
  {
    hide InForest, GoodSlots, CollisionFree, Layout.WellShaped;
    var n, k := |before|, |before| + |adds|;
    LayoutAt(o, rows, n, v);
    LayoutAt(g, rows, k, v);
    if v !in o.nodes {
      j := ComesWith(rows, n, k, v);
    } else {
      j := GoesWith(rows, n, k, v);
    }
    j := j - n;
  }

  lemma {:induction false} InSubTree(o: Layout, g: Layout, before: seq<Hash>, adds: seq<Hash>, rows: nat, v: nat,
                                     j: nat, sub: seq<Entry>)
    requires Addable(g, before, adds, rows) && LayoutFor(o, rows, |before|) && NewOrUsed(o, g, v)
    requires !Collapse(g, before + adds, v).Nil? && j < |adds| && SubTreeAt(g, before, adds, rows, j, sub)
    requires ChainNode(rows, |before| + j, v) || PoppedRoot(rows, |before| + j, v)
    ensures NodeEntry(o, g, before + adds, v) in sub
  {
    hide InForest, GoodSlots, CollisionFree, Layout.WellShaped, LayoutFor, LayoutOf, Collapse, WrittenOver, NewPos,
         Grows;
    var n := |before| + j;
    var oj := LayoutOf(rows, n);
    Midway(g, before, adds, rows, j);
    Midway(g, before, adds, rows, 0);
    LayoutUnique(o, rows, |before|);
    LayoutFits(g, rows, |before| + |adds|);
    LayoutOfFacts(rows, n);
    LayoutAt(oj, rows, n, v);
    assert Upper(oj, g, v);
    assert Upper(o, g, v);
    SameEntry(g, before, adds, rows, j, 0, v);
  }
}
