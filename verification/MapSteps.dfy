/** A cache before and after entries moved up. */
module MapSteps {
  import opened Positions
  import opened Layouts
  import opened Sequential
  import opened Uniqueness
  import opened MapTheory
  import opened MapLift
  import opened MapMoves
  import opened MapLevels

  /** What the move starts from: the cache, but for the sibling, what is below `s`, and perhaps `s`
      and the parent. */
  ghost predicate Starts(g: Layout, s: nat, nodes: map<nat, Cached>, start: map<nat, Cached>) {
    && Vacated(g, s, start)
    && forall p: nat :: p != g.Up(s) && p != s && p != Sibling(s) && !Above(g, s, p) ==>
         (p in start <==> p in nodes) && (p in start && p in nodes ==> start[p] == nodes[p])
  }

  /** What it ends with: the sibling at the place of the parent, and `s` taken by an entry that moved there,
      or free. */
  ghost predicate Ends(g: Layout, s: nat, nodes: map<nat, Cached>, start: map<nat, Cached>, moved: map<nat, Cached>,
                       end: map<nat, Cached>) {
    && Sibling(s) in nodes && g.Up(s) in end && end[g.Up(s)] == nodes[Sibling(s)]
    && (forall q: nat :: q != g.Up(s) && q != s ==>
          (q in end <==> q in moved) && (q in end && q in moved ==> end[q] == moved[q]))
    && (s in end <==> CameIn(g, s, start, AllUnder(g, s), s))
    && (s in end && s in moved ==> end[s] == moved[s])
  }

  ghost predicate Moves(g: Layout, rows: nat, s: nat, nodes: map<nat, Cached>, start: map<nat, Cached>,
                        moved: map<nat, Cached>, end: map<nat, Cached>) {
    && GivesWay(g, rows, s) && Starts(g, s, nodes, start) && Ends(g, s, nodes, start, moved, end)
    && MovedSet(g, s, start, moved, AllUnder(g, s))
  }

  /** The affected positions are the parent, the two siblings, and what is below these. */
  lemma {:induction false} AffectedIff(g: Layout, rows: nat, s: nat, q: nat)
    requires GivesWay(g, rows, s)
    ensures Affected(g, s, q) <==> q == g.Up(s) || q == s || q == Sibling(s) || Under(g, s, q)
    ensures q in AllUnder(g, s) <==> Under(g, s, q)
    ensures !(AtOrAbove(g, s, q) && AtOrAbove(g, Sibling(s), q))
  {
    hide Layout.WellShaped, Layout.IsRoot, Above;
    var u, c := g.Up(s), Sibling(s);
    g.NonRootFacts(s);
    g.ChildFacts(u);
    if Above(g, u, q) { BelowChild(g, u, q); }
    if AtOrAbove(g, s, q) { AboveOf(g, u, s, q); }
    if AtOrAbove(g, c, q) { AboveOf(g, u, c, q); }
    SiblingsApart(g, u);
    if AtOrAbove(g, s, q) && AtOrAbove(g, c, q) {
      if s <= c { Chain(g, s, c, q); } else { Chain(g, c, s, q); }
    }
    if Under(g, s, q) { AboveParent(g, if Above(g, s, q) then s else c, q); }
  }

  /** The position an entry came from. */
  lemma {:induction false} Origin(g: Layout, rows: nat, s: nat, start: map<nat, Cached>, q: nat) returns (p: nat)
    requires GivesWay(g, rows, s) && Vacated(g, s, start) && CameIn(g, s, start, AllUnder(g, s), q)
    ensures Above(g, Sibling(s), p) && p in start && p in AllUnder(g, s) && Shift(g, s, p) == q && Affected(g, s, q) &&
            q >= g.m && q != g.Up(s)
  {
    hide Layout.WellShaped, Layout.IsRoot, Above, Shift;
    p :| p in AllUnder(g, s) && p in start && Shift(g, s, p) == q;
    MoveFacts(g, rows, s, p);
    if p == Sibling(s) { AboveBounds(g, p, p); }
  }

  lemma {:induction false} StaysPut(g: Layout, rows: nat, s: nat, nodes: map<nat, Cached>, start: map<nat, Cached>,
                                    moved: map<nat, Cached>, end: map<nat, Cached>, p: nat)
    requires Moves(g, rows, s, nodes, start, moved, end) && !Affected(g, s, p)
    ensures p in end <==> p in nodes
    ensures p in end && p in nodes ==> end[p] == nodes[p]
  {
    hide Layout.WellShaped, Layout.IsRoot, Above, Shift, AllUnder, CameIn, GivesWay, Affected;
    AffectedIff(g, rows, s, p);
    if CameIn(g, s, start, AllUnder(g, s), p) { var _ := Origin(g, rows, s, start, p); }
  }

  lemma {:induction false} GoesUp(g: Layout, rows: nat, s: nat, nodes: map<nat, Cached>, start: map<nat, Cached>,
                                  moved: map<nat, Cached>, end: map<nat, Cached>, p: nat)
    requires Moves(g, rows, s, nodes, start, moved, end) && AtOrAbove(g, Sibling(s), p)
    ensures Shift(g, s, p) in end <==> p in nodes
    ensures p in nodes && Shift(g, s, p) in end ==> end[Shift(g, s, p)] == nodes[p]
  {
    hide Layout.WellShaped, Layout.IsRoot, Above, Shift, AllUnder, CameIn, GivesWay, Affected;
    MoveFacts(g, rows, s, p);
    AffectedIff(g, rows, s, p);
    var q := Shift(g, s, p);
    if p != Sibling(s) {
      assert (p in start <==> p in nodes) && (p in start && p in nodes ==>
                                              start[p] == nodes[p]) by { AboveBounds(g, g.Up(s), p); }
      MovedFrom(g, rows, s, start, moved, p);
      if p in start { CameHere(g, s, start, AllUnder(g, s), p); }
      if CameIn(g, s, start, AllUnder(g, s), q) {
        var p' := Origin(g, rows, s, start, q);
        ShiftOnce(g, rows, s, p, p');
      }
    }
  }

  /** An entry is at the new position exactly when one was at the old. */
  lemma {:induction false} MovedFrom(g: Layout, rows: nat, s: nat, start: map<nat, Cached>, moved: map<nat, Cached>,
                                     p: nat)
    requires GivesWay(g, rows, s) && Vacated(g, s, start) && MovedSet(g, s, start, moved, AllUnder(g, s)) &&
             Above(g, Sibling(s), p)
    ensures p in start ==> Shift(g, s, p) in moved && moved[Shift(g, s, p)] == start[p]
    ensures Shift(g, s, p) != s && Shift(g, s, p) in moved ==> p in start
  {
    hide Layout.WellShaped, Layout.IsRoot, Above, Shift, AllUnder, CameIn, GivesWay, Affected;
    MoveFacts(g, rows, s, p);
    AffectedIff(g, rows, s, p);
    var q := Shift(g, s, p);
    if p == Sibling(s) { AboveBounds(g, p, p); }
    ParentAffected(g, rows, s, q);
    AffectedIff(g, rows, s, q);
    if CameIn(g, s, start, AllUnder(g, s), q) {
      var p' := Origin(g, rows, s, start, q);
      ShiftOnce(g, rows, s, p, p');
    }
  }

  lemma ParentAffected(g: Layout, rows: nat, s: nat, q: nat)
    requires AtOrAbove(g, g.Up(s), q)
    ensures Affected(g, s, q)
  {
  }

  lemma CameHere(g: Layout, s: nat, start: map<nat, Cached>, done: set<nat>, p: nat)
    requires p in start && p in done
    ensures CameIn(g, s, start, done, Shift(g, s, p))
  {
    hide Shift;
  }

  lemma {:induction false} NotLow(g: Layout, rows: nat, s: nat, nodes: map<nat, Cached>, start: map<nat, Cached>,
                                  moved: map<nat, Cached>, end: map<nat, Cached>, q: nat)
    requires Moves(g, rows, s, nodes, start, moved, end) && Affected(g, s, q) && q in end
    ensures q >= g.m
  {
    hide Layout.WellShaped, Layout.IsRoot, Above, Shift, AllUnder, CameIn, GivesWay, Affected;
    MoveFacts(g, rows, s, Sibling(s));
    AffectedIff(g, rows, s, q);
    if CameIn(g, s, start, AllUnder(g, s), q) { var _ := Origin(g, rows, s, start, q); }
  }

  /** Moving the entries one by one is the move of the whole subtree. */
  lemma {:induction false} MovesLift(g: Layout, rows: nat, s: nat, nodes: map<nat, Cached>, start: map<nat, Cached>,
                                     moved: map<nat, Cached>, end: map<nat, Cached>)
    requires Moves(g, rows, s, nodes, start, moved, end)
    ensures NodesLift(g, s, nodes, end)
    ensures forall p: nat :: !Affected(g, s, p) && p in nodes && p in end ==> end[p] == nodes[p]
  {
    hide Moves, Above, Shift, AtOrAbove, Affected;
    forall p: nat | !Affected(g, s, p)
      ensures p in end <==> p in nodes
      ensures p in end && p in nodes ==> end[p] == nodes[p]
    {
      StaysPut(g, rows, s, nodes, start, moved, end, p);
    }
    forall p: nat | AtOrAbove(g, Sibling(s), p)
      ensures Shift(g, s, p) in end <==> p in nodes
      ensures p in nodes && Shift(g, s, p) in end ==> end[Shift(g, s, p)] == nodes[p]
    {
      GoesUp(g, rows, s, nodes, start, moved, end, p);
    }
    forall q: nat | Affected(g, s, q) && q in end
      ensures q >= g.m
    {
      NotLow(g, rows, s, nodes, start, moved, end, q);
    }
  }
}
