/** Entries of a cache moving up, one at a time. */
module MapMoves {
  import opened Hashes
  import opened Options
  import opened Positions
  import opened Layouts
  import opened Sequential
  import opened Navigation
  import opened Inverse
  import opened UpdateData
  import opened MapTheory
  import opened MapLift

  /** The cached leaves are entries of the cache, and the only entries with their hashes. */
  ghost predicate Linked(nodes: map<nat, Cached>, cached: map<Hash, nat>) {
    && (forall h :: h in cached ==> IsLeafHash(h))
    && (forall h :: h in cached ==> cached[h] in nodes && nodes[cached[h]] == Cached(h, true))
    && (forall p :: p in nodes && nodes[p].hash in cached ==> cached[nodes[p].hash] == p)
  }

  /** Every entry that is marked to be remembered is a cached leaf. */
  ghost predicate Flags(nodes: map<nat, Cached>, cached: map<Hash, nat>) {
    forall p :: p in nodes && nodes[p].remember ==> nodes[p].hash in cached
  }

  /** Where the cached leaves with some hashes are. */
  ghost function Places(cached: map<Hash, nat>, hashes: set<Hash>): set<nat> {
    set h | h in hashes && h in cached :: cached[h]
  }

  function MoveNode(nodes: map<nat, Cached>, from: nat, to: nat): map<nat, Cached> {
    if from in nodes then (nodes - {from})[to := nodes[from]] else nodes
  }

  function MoveCached(nodes: map<nat, Cached>, cached: map<Hash, nat>, from: nat, to: nat): map<Hash, nat> {
    if from in nodes && nodes[from].hash in cached then cached[nodes[from].hash := to] else cached
  }

  lemma {:induction false} LinkedMove(nodes: map<nat, Cached>, cached: map<Hash, nat>, from: nat, to: nat)
    requires Linked(nodes, cached) && from != to && (to in nodes ==> nodes[to].hash !in cached)
    ensures Linked(MoveNode(nodes, from, to), MoveCached(nodes, cached, from, to))
    ensures MoveCached(nodes, cached, from, to).Keys == cached.Keys
  {
    hide IsLeafHash;
  }

  /** An entry that came from one of the positions `done`. */
  ghost predicate CameIn(g: Layout, s: nat, nodes: map<nat, Cached>, done: set<nat>, q: nat) {
    exists p :: p in done && p in nodes && Shift(g, s, p) == q
  }

  /** The cache when the entries at the positions `done` have moved up. */
  ghost predicate MovedSet(g: Layout, s: nat, nodes: map<nat, Cached>, nodes': map<nat, Cached>, done: set<nat>) {
    && (forall p :: p in done && p in nodes ==> Shift(g, s, p) in nodes' && nodes'[Shift(g, s, p)] == nodes[p])
    && (forall q :: q in nodes' ==> CameIn(g, s, nodes, done, q) || (q !in done && q in nodes && nodes'[q] == nodes[q]))
    && (forall q :: q in nodes && q !in done ==> q in nodes')
  }

  lemma {:induction false} MoveOne(g: Layout, s: nat, nodes: map<nat, Cached>, nodes': map<nat, Cached>, done: set<nat>,
                                   x: nat)
    requires MovedSet(g, s, nodes, nodes', done) && x !in done && Shift(g, s, x) != x
    requires forall p :: p in done && p in nodes ==> Shift(g, s, p) != x && Shift(g, s, p) != Shift(g, s, x)
    ensures MovedSet(g, s, nodes, MoveNode(nodes', x, Shift(g, s, x)), done + {x})
    ensures x in nodes' <==> x in nodes
  {
    hide Shift;
    var q, next := Shift(g, s, x), MoveNode(nodes', x, Shift(g, s, x));
    assert !CameIn(g, s, nodes, done, x);
    forall r | r in next
      ensures CameIn(g, s, nodes, done + {x}, r) || (r !in done + {x} && r in nodes && next[r] == nodes[r])
    {
      if CameIn(g, s, nodes, done, r) {
        var p :| p in done && p in nodes && Shift(g, s, p) == r;
        assert p in done + {x};
      } else if r == q && x in nodes' {
        assert x in done + {x};
      }
    }
  }

  /** A position that is not in the cache counts as moved. */
  lemma {:induction false} MoveNothing(g: Layout, s: nat, nodes: map<nat, Cached>, nodes': map<nat, Cached>,
                                       done: set<nat>, x: nat)
    requires MovedSet(g, s, nodes, nodes', done) && x !in nodes && x !in done
    requires forall p :: p in done && p in nodes ==> Shift(g, s, p) != x
    ensures MovedSet(g, s, nodes, nodes', done + {x}) && x !in nodes'
  {
    hide Shift;
    assert !CameIn(g, s, nodes, done, x);
    forall r | r in nodes' && CameIn(g, s, nodes, done, r)
      ensures CameIn(g, s, nodes, done + {x}, r)
    {
      var p :| p in done && p in nodes && Shift(g, s, p) == r;
      assert p in done + {x};
    }
  }

  /** Below one of the two siblings. */
  ghost predicate Under(g: Layout, s: nat, p: nat) {
    Above(g, s, p) || Above(g, Sibling(s), p)
  }

  /** The rows above `h` are done, of row `h` some positions are. */
  ghost predicate Done(g: Layout, rows: nat, s: nat, done: set<nat>, h: nat) {
    && (forall p :: p in done ==> Valid(rows, p) && Under(g, s, p) && Row(rows, p) >= h)
    && (forall p: nat :: Under(g, s, p) && Valid(rows, p) && Row(rows, p) > h ==> p in done)
  }

  /** The sibling has been taken out of the cache, and nothing is below `s`. */
  ghost predicate Vacated(g: Layout, s: nat, nodes: map<nat, Cached>) {
    && Sibling(s) !in nodes && (s in nodes ==> nodes[s].hash == Empty)
    && forall p: nat :: Above(g, s, p) ==> p !in nodes
  }

  /** Different positions move to different positions. */
  lemma {:induction false} ShiftOnce(g: Layout, rows: nat, s: nat, p: nat, q: nat)
    requires GivesWay(g, rows, s) && AtOrAbove(g, Sibling(s), p) && AtOrAbove(g, Sibling(s), q) &&
             Shift(g, s, p) == Shift(g, s, q)
    ensures p == q
  {
    hide Shift, Above, Layout.WellShaped, Layout.IsRoot, CalcNextPosition, CalcPrevPosition, Row;
    MoveFacts(g, rows, s, p);
    MoveFacts(g, rows, s, q);
    PrevOfNext(g, rows, s, p);
    PrevOfNext(g, rows, s, q);
    NextIsShift(g, rows, s, p);
    NextIsShift(g, rows, s, q);
  }

  /** What is already done is not in the way. */
  lemma {:induction false} DoneApart(g: Layout, rows: nat, s: nat, nodes: map<nat, Cached>, done: set<nat>, h: nat,
                                     x: nat, p: nat)
    requires GivesWay(g, rows, s) && Vacated(g, s, nodes) && Done(g, rows, s, done, h) && x !in done
    requires Under(g, s, x) && Valid(rows, x) && Row(rows, x) == h
    requires p in done && p in nodes
    ensures Shift(g, s, p) != x
    ensures Above(g, Sibling(s), x) ==> Shift(g, s, p) != Shift(g, s, x)
  {
    hide Shift, Above, Layout.WellShaped, Layout.IsRoot, Row;
    MoveFacts(g, rows, s, Sibling(s));
    BelowNode(g, Sibling(s), p);
    ShiftRow(g, rows, s, p);
    if Above(g, Sibling(s), x) && Shift(g, s, p) == Shift(g, s, x) { ShiftOnce(g, rows, s, p, x); }
  }

  /** The place an entry moves to is vacant, or has the stale entry of an empty root. */
  lemma {:induction false} PlaceFree(g: Layout, rows: nat, s: nat, nodes: map<nat, Cached>, nodes': map<nat, Cached>,
                                     cached: map<Hash, nat>, done: set<nat>, h: nat, x: nat)
    requires GivesWay(g, rows, s) && Vacated(g, s, nodes) && Done(g, rows, s, done, h) && x !in done
    requires Above(g, Sibling(s), x) && Valid(rows, x) && Row(rows, x) == h
    requires MovedSet(g, s, nodes, nodes', done) && Empty !in cached
    ensures Shift(g, s, x) != x
    ensures Shift(g, s, x) in nodes' ==> nodes'[Shift(g, s, x)].hash !in cached
  {
    hide Shift, Above, Layout.WellShaped, Layout.IsRoot, Row, IsLeafHash;
    var q := Shift(g, s, x);
    MoveFacts(g, rows, s, x);
    ShiftRow(g, rows, s, x);
    if x == Sibling(s) { AboveBounds(g, x, x); }
    if q in nodes' {
      if CameIn(g, s, nodes, done, q) {
        var p :| p in done && p in nodes && Shift(g, s, p) == q;
        DoneApart(g, rows, s, nodes, done, h, x, p);
      } else {
        g.NonRootFacts(s);
        BelowChild(g, g.Up(s), q);
      }
    }
  }

  lemma NotCachedEmpty(nodes: map<nat, Cached>, cached: map<Hash, nat>)
    requires Linked(nodes, cached)
    ensures Empty !in cached
  {
  }

  /** One more position. */
  lemma {:induction false} DoneMore(g: Layout, rows: nat, s: nat, done: set<nat>, h: nat, x: nat)
    requires Done(g, rows, s, done, h) && Under(g, s, x) && Valid(rows, x) && Row(rows, x) == h
    ensures Done(g, rows, s, done + {x}, h)
  {
    hide Above, Row;
  }

  /** One step of the move, with an entry for the parent put beside. */
  lemma {:induction false} StepUp(g: Layout, rows: nat, s: nat, nodes: map<nat, Cached>, nodes': map<nat, Cached>,
                                  cached: map<Hash, nat>, done: set<nat>, h: nat, x: nat, to: nat, top: Cached)
    requires GivesWay(g, rows, s) && Vacated(g, s, nodes) && Done(g, rows, s, done, h) && x !in done
    requires Under(g, s, x) && Valid(rows, x) && Row(rows, x) == h
    requires MovedSet(g, s, nodes, nodes', done) && Linked(nodes'[g.Up(s) := top], cached)
    requires Above(g, Sibling(s), x) ==> to == Shift(g, s, x)
    ensures Done(g, rows, s, done + {x}, h)
    ensures MovedSet(g, s, nodes, MoveNode(nodes', x, to), done + {x})
    ensures Linked(MoveNode(nodes', x, to)[g.Up(s) := top], MoveCached(nodes', cached, x, to))
    ensures MoveCached(nodes', cached, x, to).Keys == cached.Keys
  {
    hide Shift, Above, Layout.WellShaped, Layout.IsRoot, Row, Linked, MovedSet;
    DoneMore(g, rows, s, done, h, x);
    forall p | p in done && p in nodes
      ensures Shift(g, s, p) != x
      ensures Above(g, Sibling(s), x) ==> Shift(g, s, p) != Shift(g, s, x)
    {
      DoneApart(g, rows, s, nodes, done, h, x, p);
    }
    if Above(g, Sibling(s), x) {
      NotCachedEmpty(nodes'[g.Up(s) := top], cached);
      PlaceFree(g, rows, s, nodes, nodes', cached, done, h, x);
      MoveOne(g, s, nodes, nodes', done, x);
      MoveFacts(g, rows, s, x);
      if x == Sibling(s) || x == g.Up(s) { AboveBounds(g, Sibling(s), x); }
      LinkedMove(nodes'[g.Up(s) := top], cached, x, to);
      MoveBeside(nodes', cached, x, to, g.Up(s), top);
    } else {
      MoveNothing(g, s, nodes, nodes', done, x);
    }
  }

  lemma MoveBeside(nodes: map<nat, Cached>, cached: map<Hash, nat>, from: nat, to: nat, u: nat, top: Cached)
    requires from != u && to != u
    ensures MoveNode(nodes[u := top], from, to) == MoveNode(nodes, from, to)[u := top]
    ensures MoveCached(nodes[u := top], cached, from, to) == MoveCached(nodes, cached, from, to)
  {
  }
}
