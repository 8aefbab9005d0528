/** How many leaves there are, and how many were deleted. */
module LeafCounts {
  import opened Hashes
  import opened Positions
  import opened Geometry
  import opened Layouts
  import opened Entries
  import opened Forests
  import opened Honest
  import opened Sequential
  import opened Slots
  import opened TreeIndex
  import opened Uniqueness
  import opened Growth
  import opened Pollards

  /** The hashes of the leaves, the keys of the node map. */
  ghost function LeafKeys(slots: seq<Hash>): set<Hash> {
    set h | h in slots && h != Empty
  }

  /** How many slots have one of the hashes. */
  ghost function Count(slots: seq<Hash>, k: set<Hash>): nat {
    if |slots| == 0 then 0 else Count(slots[..|slots| - 1], k) + if slots[|slots| - 1] in k then 1 else 0
  }

  /** How many slots are empty. */
  ghost function Vacant(slots: seq<Hash>): nat {
    Count(slots, {Empty})
  }

  lemma {:induction false} CountApart(slots: seq<Hash>, k: set<Hash>, l: set<Hash>)
    requires forall h :: h in slots ==> (h in k <==> h in l)
    ensures Count(slots, k) == Count(slots, l)
  {
    if |slots| > 0 {
      assert slots[|slots| - 1] in slots;
      assert forall h :: h in slots[..|slots| - 1] ==> h in slots;
      CountApart(slots[..|slots| - 1], k, l);
    }
  }

  lemma {:induction false} CountBoth(slots: seq<Hash>, k: set<Hash>, l: set<Hash>)
    requires k !! l
    ensures Count(slots, k + l) == Count(slots, k) + Count(slots, l)
  {
    if |slots| > 0 { CountBoth(slots[..|slots| - 1], k, l); }
  }

  /** Each hash that is in the slots is there once. */
  lemma {:induction false} CountKeys(slots: seq<Hash>, k: set<Hash>)
    requires GoodSlots(slots) && k <= LeafKeys(slots)
    ensures Count(slots, k) == |k|
  {
    hide IsLeafHash;
    if |slots| > 0 {
      var rest, h := slots[..|slots| - 1], slots[|slots| - 1];
      GoodPrefix(slots, |slots| - 1);
      if h in k {
        forall x | x in rest
          ensures x != h
        {
          var i :| 0 <= i < |rest| && rest[i] == x;
          assert slots[i] == x;
        }
        SplitKeys(slots, k - {h});
        CountKeys(rest, k - {h});
        CountApart(rest, k, k - {h});
      } else {
        SplitKeys(slots, k);
        CountKeys(rest, k);
      }
    } else {
      assert k == {};
    }
  }

  lemma SplitKeys(slots: seq<Hash>, k: set<Hash>)
    requires |slots| > 0 && k <= LeafKeys(slots) && slots[|slots| - 1] !in k
    ensures k <= LeafKeys(slots[..|slots| - 1])
  {
    assert slots == slots[..|slots| - 1] + [slots[|slots| - 1]];
  }

  lemma {:induction false} CountAll(slots: seq<Hash>, k: set<Hash>)
    requires forall h :: h in slots ==> h in k
    ensures Count(slots, k) == |slots|
  {
    if |slots| > 0 {
      assert slots[|slots| - 1] in slots;
      assert forall h :: h in slots[..|slots| - 1] ==> h in slots;
      CountAll(slots[..|slots| - 1], k);
    }
  }

  /** All slots are leaves or empty. */
  lemma {:induction false} LeavesAndVacant(slots: seq<Hash>)
    requires GoodSlots(slots)
    ensures |LeafKeys(slots)| + Vacant(slots) == |slots|
  {
    CountKeys(slots, LeafKeys(slots));
    CountBoth(slots, LeafKeys(slots), {Empty});
    CountAll(slots, LeafKeys(slots) + {Empty});
  }

  lemma {:induction false} CountErased(slots: seq<Hash>, hashes: set<Hash>)
    ensures Count(Erase(slots, hashes), {Empty}) == Count(slots, hashes + {Empty})
  {
    if |slots| > 0 {
      var rest := slots[..|slots| - 1];
      CountErased(rest, hashes);
      assert Erase(slots, hashes)[..|slots| - 1] == Erase(rest, hashes);
    }
  }

  lemma {:induction false} SizeOfDistinct(s: seq<Hash>)
    requires forall i, j :: 0 <= i < j < |s| ==> s[i] != s[j]
    ensures |set h | h in s| == |s|
  {
    if |s| > 0 {
      var rest, last := s[..|s| - 1], s[|s| - 1];
      SizeOfDistinct(rest);
      assert (set h | h in s) == (set h | h in rest) + {last};
    }
  }

  /** The leaf of a slot is in the tree of every node above it. */
  lemma {:induction false} SlotInTree(g: Layout, slots: seq<Hash>, p: nat, i: nat)
    requires g.WellShaped() && p in g.nodes && i in g.nodes && i < |slots| && i < g.m && slots[i] != Empty &&
             AtOrAbove(g, p, i)
    ensures slots[i] in LeafSet(Collapse(g, slots, p))
    decreases p
  {
    hide Layout.WellShaped, Above;
    g.NodeBound(p);
    if p != i {
      AboveBounds(g, p, i);
      BelowChild(g, p, i);
      g.ChildFacts(p);
      var c := if AtOrAbove(g, g.Left(p), i) then g.Left(p) else g.Right(p);
      SlotInTree(g, slots, c, i);
      LeafSetJoin(Collapse(g, slots, g.Left(p)), Collapse(g, slots, g.Right(p)));
    }
  }

  /** The leaf of every slot is somewhere in the forest. */
  lemma {:induction false} LeafSomewhere(g: Layout, rows: nat, slots: seq<Hash>, h: Hash) returns (x: nat)
    requires LayoutFor(g, rows, |slots|) && h in slots && h != Empty
    ensures At(g, ForestOf(g, slots), x) == Leaf(h)
  {
    hide LayoutFor, Layout.WellShaped, Collapse, RootOf, At, ForestOf, LeafSet, Layout.IsRoot;
    LayoutFits(g, rows, |slots|);
    var i :| 0 <= i < |slots| && slots[i] == h;
    LeafNode(g, rows, |slots|, i);
    RootOfFacts(g, i);
    var r := RootOf(g, i);
    RootNode(g, r);
    SlotInTree(g, slots, r, i);
    AtRoot(g, slots, r);
    ForestOfCompact(g, slots);
    CompactOk(g, ForestOf(g, slots));
    PlaceInAt(g, ForestOf(g, slots), r, h);
    x := PlaceIn(g, r, At(g, ForestOf(g, slots), r), h);
  }

  /** As many leaves are deleted as there are positions. */
  lemma {:induction false} DeletedCount(g: Layout, slots: seq<Hash>, dels: seq<nat>, hashes: set<Hash>)
    requires Deletes(g, slots, dels, hashes) && GoodSlots(slots)
    ensures Vacant(Erase(slots, hashes)) == Vacant(slots) + |dels|
  {
    hide LayoutFor, At, ForestOf, GoodSlots, Erase, Count, NoDuplicates;
    var f := ForestOf(g, slots);
    LayoutFits(g, TreeRows(|slots|), |slots|);
    assert forall i :: 0 <= i < |dels| ==> dels[i] in Elems(dels);
    var hs := seq(|dels|, i requires 0 <= i < |dels| => At(g, f, dels[i]).hash);
    var k := LeafKeys(slots) * hashes;
    forall h
      ensures h in hs <==> h in k
    {
      if h in hs {
        var i :| 0 <= i < |dels| && At(g, f, dels[i]).hash == h;
        LeafOfSlots(g, slots, dels[i], h);
        LeafIsHash(g, slots, dels[i]);
      }
      if h in k {
        var x := LeafSomewhere(g, TreeRows(|slots|), slots, h);
        assert x in Elems(dels);
        var i :| 0 <= i < |dels| && dels[i] == x;
        assert hs[i] == h;
      }
    }
    HashesDiffer(g, slots, dels, hs);
    SizeOfDistinct(hs);
    assert (set h | h in hs) == k;
    CountKeys(slots, k);
    CountErased(slots, hashes);
    CountApart(slots, hashes + {Empty}, k + {Empty});
    CountBoth(slots, k, {Empty});
  }

  lemma {:induction false} LeafIsHash(g: Layout, slots: seq<Hash>, x: nat)
    requires g.WellShaped() && GoodSlots(slots) && At(g, ForestOf(g, slots), x).Leaf?
    ensures IsLeafHash(At(g, ForestOf(g, slots), x).hash) && At(g, ForestOf(g, slots), x).hash != Empty
  {
    hide At, ForestOf, Layout.WellShaped, GoodSlots;
    AtLeafHashes(g, slots, x);
  }

  lemma {:induction false} HashesDiffer(g: Layout, slots: seq<Hash>, dels: seq<nat>, hs: seq<Hash>)
    requires g.WellShaped() && GoodSlots(slots) && NoDuplicates(dels) && |hs| == |dels|
    requires forall i :: 0 <= i < |dels| ==> At(g, ForestOf(g, slots), dels[i]) == Leaf(hs[i])
    ensures forall i, j :: 0 <= i < j < |hs| ==> hs[i] != hs[j]
  {
    hide At, ForestOf, Layout.WellShaped, GoodSlots;
    forall i, j | 0 <= i < j < |hs|
      ensures hs[i] != hs[j]
    {
      if hs[i] == hs[j] { OnePlace(g, slots, dels[i], dels[j]); }
    }
  }

  /** The keys and the count of empty slots after an addition. */
  lemma {:induction false} AddedKey(slots: seq<Hash>, h: Hash)
    requires h != Empty
    ensures LeafKeys(slots + [h]) == LeafKeys(slots) + {h} && Vacant(slots + [h]) == Vacant(slots)
  {
    var more := slots + [h];
    assert more[..|slots|] == slots && more[|slots|] == h;
    assert forall x :: x in more <==> x in slots || x == h;
  }

  /** The key of the last leaf. */
  lemma {:induction false} LastKey(before: seq<Hash>, leaf: Hash)
    requires GoodSlots(before + [leaf]) && leaf != Empty
    ensures LeafKeys(before + [leaf]) - {leaf} == LeafKeys(before)
    ensures forall h :: h in LeafKeys(before + [leaf]) ==> IsLeafHash(h)
  {
    hide IsLeafHash;
    var more := before + [leaf];
    assert more[|before|] == leaf;
    forall h | h in LeafKeys(more)
      ensures IsLeafHash(h)
      ensures h != leaf ==> h in before
    {
      var i :| 0 <= i < |more| && more[i] == h;
    }
    forall h | h in LeafKeys(before)
      ensures h in more && h != leaf
    {
      var i :| 0 <= i < |before| && before[i] == h;
      assert more[i] == h;
    }
  }

  lemma KeyIsLeafHash(slots: seq<Hash>, h: Hash)
    requires GoodSlots(slots) && h in LeafKeys(slots)
    ensures IsLeafHash(h)
  {
  }

  lemma {:induction false} ErasedKeys(slots: seq<Hash>, hashes: set<Hash>)
    ensures LeafKeys(Erase(slots, hashes)) == LeafKeys(slots) - hashes
  {
    var after := Erase(slots, hashes);
    forall h | h in LeafKeys(slots) - hashes
      ensures h in after
    {
      var i :| 0 <= i < |slots| && slots[i] == h;
      assert after[i] == h;
    }
    forall h | h in LeafKeys(after)
      ensures h in slots && h !in hashes
    {
      var i :| 0 <= i < |after| && after[i] == h;
      assert slots[i] == h;
    }
  }
}
