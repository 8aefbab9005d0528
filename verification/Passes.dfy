/** The pass from the targets up to the roots, for any targets. */
module Passes {
  // Here the targets need not differ, and one may be above another.  The pass is written down as a recursion over
  // what is left of its two queues, for values of any kind: hashes, or terms that also record where a
  // hash came from.

  import opened Hashes
  import opened Options
  import opened Positions
  import opened Layouts
  import opened Streaming

  /** A value at a position. */
  datatype Item<T> = Item(pos: nat, value: T)

  ghost function Places<T>(s: seq<Item<T>>): (r: seq<nat>)
    ensures |r| == |s| && forall i :: 0 <= i < |s| ==> r[i] == s[i].pos
  {
    seq(|s|, i requires 0 <= i < |s| => s[i].pos)
  }

  /** All positions are nodes of the forest. */
  ghost predicate InNodes<T(!new)>(g: Layout, s: seq<Item<T>>) {
    forall i :: 0 <= i < |s| ==> s[i].pos in g.nodes
  }

  /** How far the positions are from the top, together. */
  ghost function Weight<T>(g: Layout, s: seq<Item<T>>): nat {
    if |s| == 0 then 0 else Weight(g, s[..|s| - 1]) + if s[|s| - 1].pos < 2 * g.m then 2 * g.m - s[|s| - 1].pos else 0
  }

  lemma {:induction false} WeightFirst<T>(g: Layout, s: seq<Item<T>>)
    requires |s| > 0
    ensures Weight(g, s) == Weight(g, s[1..]) + if s[0].pos < 2 * g.m then 2 * g.m - s[0].pos else 0
  {
    if |s| > 1 {
      WeightFirst(g, s[..|s| - 1]);
      assert s[..|s| - 1][1..] == s[1..][..|s| - 2];
    }
  }

  lemma WeightMore<T>(g: Layout, s: seq<Item<T>>, x: Item<T>)
    ensures Weight(g, s + [x]) == Weight(g, s) + if x.pos < 2 * g.m then 2 * g.m - x.pos else 0
  {
    assert (s + [x])[..|s|] == s;
  }

  /** What one step takes from the queues: an item, and its sibling if that is next; and what is left of them. */
  datatype Taken<T> = Taken(first: Item<T>, sibling: Option<Item<T>>, a: seq<Item<T>>, b: seq<Item<T>>)

  ghost function Take<T>(a: seq<Item<T>>, b: seq<Item<T>>): Taken<T>
    requires |a| + |b| > 0
  {
    var nx := GetNextPos(Places(a), Places(b), 0, 0);
    var first := if nx.idx == 0 then a[0] else b[0];
    var a1, b1 := if nx.idx == 0 then a[1..] else a, if nx.idx == 1 then b[1..] else b;
    if nx.sibIdx == 0 then Taken(first, Some(a1[0]), a1[1..], b1)
    else if nx.sibIdx == 1 then Taken(first, Some(b1[0]), a1, b1[1..])
    else Taken(first, None, a1, b1)
  }

  /** What is taken is no longer in the queues. */
  lemma {:induction false} TakeFacts<T(!new)>(g: Layout, a: seq<Item<T>>, b: seq<Item<T>>)
    requires |a| + |b| > 0 && InNodes(g, a) && InNodes(g, b)
    ensures var t := Take(a, b);
            && t.first.pos in g.nodes && InNodes(g, t.a) && InNodes(g, t.b)
            && t.first.pos == GetNextPos(Places(a), Places(b), 0, 0).pos
            && Weight(g, t.a) + Weight(g, t.b) + (if t.first.pos < 2 * g.m then 2 * g.m - t.first.pos
                                                  else 0) <= Weight(g, a) + Weight(g, b)
            && (t.sibling.Some? ==> t.sibling.value.pos == RightSib(t.first.pos) && t.sibling.value.pos in g.nodes)
  {
    hide Weight;
    var nx := GetNextPos(Places(a), Places(b), 0, 0);
    var a1, b1 := if nx.idx == 0 then a[1..] else a, if nx.idx == 1 then b[1..] else b;
    if nx.idx == 0 { WeightFirst(g, a); } else { WeightFirst(g, b); }
    if nx.sibIdx == 0 { WeightFirst(g, a1); }
    if nx.sibIdx == 1 { WeightFirst(g, b1); }
  }

  /** The values at the roots, in the order the pass comes to them; none when the proof is too short. */
  ghost function Pass<T(!new)>(g: Layout, a: seq<Item<T>>, b: seq<Item<T>>, proof: seq<T>, combine: (nat, T, T) -> T)
    : Option<seq<T>>
    requires g.WellShaped() && InNodes(g, a) && InNodes(g, b)
    decreases Weight(g, a) + Weight(g, b)
  {
    if |a| + |b| == 0 then Some([])
    else
      TakeFacts(g, a, b);
      var t := Take(a, b);
      g.NodeBound(t.first.pos);
      if g.IsRoot(t.first.pos) then
        match Pass(g, t.a, t.b, proof, combine)
        case None => None
        case Some(rest) => Some([t.first.value] + rest)
      else
        g.NonRootFacts(t.first.pos);
        if t.sibling.Some? then
          var x := Item(g.Up(t.first.pos), combine(t.first.pos, t.first.value, t.sibling.value.value));
          WeightMore(g, t.b, x);
          Pass(g, t.a, t.b + [x], proof, combine)
        else if |proof| == 0 then None
        else
          var x := Item(g.Up(t.first.pos), combine(t.first.pos, t.first.value, proof[0]));
          WeightMore(g, t.b, x);
          Pass(g, t.a, t.b + [x], proof[1..], combine)
  }

  /** Nothing is beside a root. */
  lemma {:induction false} RootAlone<T(!new)>(g: Layout, a: seq<Item<T>>, b: seq<Item<T>>)
    requires |a| + |b| > 0 && g.WellShaped() && InNodes(g, a) && InNodes(g, b) && g.IsRoot(Take(a, b).first.pos)
    ensures Take(a, b).sibling.None?
  {
    hide Weight, Layout.WellShaped;
    TakeFacts(g, a, b);
    g.RootFacts(Take(a, b).first.pos);
  }

  /** One step of the pass. */
  lemma {:induction false} RunStep<T(!new)>(g: Layout, a: seq<Item<T>>, b: seq<Item<T>>, proof: seq<T>,
                                            combine: (nat, T, T) -> T)
    requires g.WellShaped() && InNodes(g, a) && InNodes(g, b) && |a| + |b| > 0
    ensures var t := Take(a, b);
            && t.first.pos in g.nodes && InNodes(g, t.a) && InNodes(g, t.b)
            && Weight(g, t.a) + Weight(g, t.b) < Weight(g, a) + Weight(g, b)
            && if g.IsRoot(t.first.pos) then
                 && t.sibling.None?
                 && (Pass(g, t.a, t.b, proof, combine).None? ==> Pass(g, a, b, proof, combine).None?)
                 && (Pass(g, t.a, t.b, proof, combine).Some? ==>
                       Pass(g, a, b, proof, combine) == Some([t.first.value] + Pass(g, t.a, t.b, proof, combine).value))
               else
                 && g.Up(t.first.pos) in g.nodes
                 && (t.sibling.None? && |proof| == 0 ==> Pass(g, a, b, proof, combine).None?)
                 && (t.sibling.Some? || |proof| > 0 ==>
                       var y := if t.sibling.Some? then t.sibling.value.value else proof[0];
                       var b' := t.b + [Item(g.Up(t.first.pos), combine(t.first.pos, t.first.value, y))];
                       && InNodes(g, b') && Weight(g, t.a) + Weight(g, b') < Weight(g, a) + Weight(g, b)
                       && Pass(g, a, b, proof, combine) ==
                          Pass(g, t.a, b', if t.sibling.Some? then proof else proof[1..], combine))
  {
    hide Weight, Layout.WellShaped, Take, Layout.IsRoot;
    TakeFacts(g, a, b);
    var t := Take(a, b);
    g.NodeBound(t.first.pos);
    if g.IsRoot(t.first.pos) {
      RootAlone(g, a, b);
    } else {
      g.NonRootFacts(t.first.pos);
      if t.sibling.Some? || |proof| > 0 {
        var y := if t.sibling.Some? then t.sibling.value.value else proof[0];
        WeightMore(g, t.b, Item(g.Up(t.first.pos), combine(t.first.pos, t.first.value, y)));
      }
    }
  }

  ghost function MapItems<T(!new), U(!new)>(s: seq<Item<T>>, f: T -> U): (r: seq<Item<U>>)
    ensures |r| == |s| && forall i :: 0 <= i < |s| ==> r[i] == Item(s[i].pos, f(s[i].value))
  {
    seq(|s|, i requires 0 <= i < |s| => Item(s[i].pos, f(s[i].value)))
  }

  ghost function MapValues<T(!new), U(!new)>(s: seq<T>, f: T -> U): (r: seq<U>)
    ensures |r| == |s| && forall i :: 0 <= i < |s| ==> r[i] == f(s[i])
  {
    seq(|s|, i requires 0 <= i < |s| => f(s[i]))
  }

  lemma MapRest<T(!new), U(!new)>(s: seq<Item<T>>, f: T -> U)
    requires |s| > 0
    ensures MapItems(s, f)[1..] == MapItems(s[1..], f)
  {
  }

  lemma {:induction false} TakeMap<T(!new), U(!new)>(a: seq<Item<T>>, b: seq<Item<T>>, f: T -> U)
    requires |a| + |b| > 0
    ensures var t, u := Take(a, b), Take(MapItems(a, f), MapItems(b, f));
            && u.first == Item(t.first.pos, f(t.first.value)) && u.a == MapItems(t.a, f) && u.b == MapItems(t.b, f)
            && (u.sibling.Some? <==> t.sibling.Some?)
            && (t.sibling.Some? ==> u.sibling.value == Item(t.sibling.value.pos, f(t.sibling.value.value)))
  {
    assert Places(MapItems(a, f)) == Places(a) && Places(MapItems(b, f)) == Places(b);
    var nx := GetNextPos(Places(a), Places(b), 0, 0);
    hide GetNextPos, Places;
    var a1, b1 := if nx.idx == 0 then a[1..] else a, if nx.idx == 1 then b[1..] else b;
    if nx.idx == 0 { MapRest(a, f); } else { MapRest(b, f); }
    if nx.sibIdx == 0 { MapRest(a1, f); }
    if nx.sibIdx == 1 { MapRest(b1, f); }
  }

  /** A pass over values that stand for others. */
  lemma {:induction false} RunMap<T(!new), U(!new)>(g: Layout, a: seq<Item<T>>, b: seq<Item<T>>, proof: seq<T>,
                                                    combine: (nat, T, T) -> T, f: T -> U, combine': (nat, U, U) -> U)
    requires g.WellShaped() && InNodes(g, a) && InNodes(g, b)
    requires forall p: nat, x: T, y: T :: f(combine(p, x, y)) == combine'(p, f(x), f(y))
    ensures InNodes(g, MapItems(a, f)) && InNodes(g, MapItems(b, f))
    ensures var r, r' := Pass(g, a, b, proof, combine),
            Pass(g, MapItems(a, f), MapItems(b, f), MapValues(proof, f), combine');
            (r.None? ==> r'.None?) && (r.Some? ==> r' == Some(MapValues(r.value, f)))
    decreases Weight(g, a) + Weight(g, b)
  {
    hide Weight, Layout.WellShaped, Take, Layout.IsRoot, Pass;
    var a', b', proof' := MapItems(a, f), MapItems(b, f), MapValues(proof, f);
    if |a| + |b| == 0 {
      RunEnd(g, a, b, proof, combine);
      RunEnd(g, a', b', proof', combine');
      assert MapValues([], f) == [];
    } else {
      RunStep(g, a, b, proof, combine);
      RunStep(g, a', b', proof', combine');
      TakeMap(a, b, f);
      var t := Take(a, b);
      if g.IsRoot(t.first.pos) {
        RunMap(g, t.a, t.b, proof, combine, f, combine');
        RootMap(g, t, proof, combine, f);
      } else if t.sibling.Some? || |proof| > 0 {
        var y := if t.sibling.Some? then t.sibling.value.value else proof[0];
        var x := Item(g.Up(t.first.pos), combine(t.first.pos, t.first.value, y));
        var rest := if t.sibling.Some? then proof else proof[1..];
        RunMap(g, t.a, t.b + [x], rest, combine, f, combine');
        assert MapItems(t.b + [x], f) == MapItems(t.b, f) + [Item(x.pos, f(x.value))];
        assert MapValues(rest, f) == if t.sibling.Some? then proof' else proof'[1..];
      }
    }
  }

  lemma {:induction false} RootMap<T(!new), U(!new)>(g: Layout, t: Taken<T>, proof: seq<T>, combine: (nat, T, T) -> T,
                                                     f: T -> U)
    requires g.WellShaped() && InNodes(g, t.a) && InNodes(g, t.b)
    ensures var r := Pass(g, t.a, t.b, proof, combine);
            r.Some? ==> MapValues([t.first.value] + r.value, f) == [f(t.first.value)] + MapValues(r.value, f)
  {
    hide Pass, Layout.WellShaped;
  }

  lemma RunEnd<T(!new)>(g: Layout, a: seq<Item<T>>, b: seq<Item<T>>, proof: seq<T>, combine: (nat, T, T) -> T)
    requires g.WellShaped() && InNodes(g, a) && InNodes(g, b) && |a| + |b| == 0
    ensures Pass(g, a, b, proof, combine) == Some([])
  {
  }
}
