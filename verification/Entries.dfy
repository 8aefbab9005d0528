/** Lists of positions and hashes, in ascending order. */
module Entries {
  import opened Hashes
  import opened Positions

  datatype Entry = Entry(pos: nat, hash: Hash)

  /** In ascending order of position, each position once. */
  ghost predicate Sorted(s: seq<Entry>) {
    forall i, j :: 0 <= i < j < |s| ==> s[i].pos < s[j].pos
  }

  ghost predicate Distinct(s: seq<Entry>) {
    forall i, j :: 0 <= i < j < |s| ==> s[i].pos != s[j].pos
  }

  function PositionsOf(s: seq<Entry>): (r: seq<nat>)
    ensures |r| == |s| && forall i :: 0 <= i < |s| ==> r[i] == s[i].pos
  {
    seq(|s|, i requires 0 <= i < |s| => s[i].pos)
  }

  function HashesOf(s: seq<Entry>): (r: seq<Hash>)
    ensures |r| == |s| && forall i :: 0 <= i < |s| ==> r[i] == s[i].hash
  {
    seq(|s|, i requires 0 <= i < |s| => s[i].hash)
  }

  /** Attach hashes to positions. */
  function Zip(positions: seq<nat>, hashes: seq<Hash>): (r: seq<Entry>)
    requires |positions| <= |hashes|
    ensures |r| == |positions|
    ensures forall i :: 0 <= i < |r| ==> r[i] == Entry(positions[i], hashes[i])
  {
    seq(|positions|, i requires 0 <= i < |positions| => Entry(positions[i], hashes[i]))
  }

  ghost function PosSet(s: seq<Entry>): set<nat> {
    set e | e in s :: e.pos
  }

  ghost function Elems(s: seq<nat>): set<nat> {
    set x | x in s
  }

  /** The list read as a map from positions to hashes. */
  ghost function MapOf(s: seq<Entry>): map<nat, Hash> {
    if s == [] then map[] else MapOf(s[..|s| - 1])[s[|s| - 1].pos := s[|s| - 1].hash]
  }

  /** The map of a list without repeated positions holds its entries and nothing else. */
  lemma {:induction false} MapOfFacts(s: seq<Entry>)
    requires Distinct(s)
    ensures MapOf(s).Keys == PosSet(s)
    ensures forall e :: e in s <==> e.pos in MapOf(s) && MapOf(s)[e.pos] == e.hash
  {
    if s != [] {
      var init, last := s[..|s| - 1], s[|s| - 1];
      DistinctInit(s);
      MapOfFacts(init);
      MapOfSnoc(s);
      hide MapOf, Distinct;
      assert s == init + [last];
      forall e
        ensures e in s <==> e in init || e == last
      {
      }
      var m := MapOf(init);
      assert MapOf(s) == m[last.pos := last.hash];
      PosSetSnoc(init, last);
    }
  }

  lemma MapOfSnoc(s: seq<Entry>)
    requires s != []
    ensures MapOf(s) == MapOf(s[..|s| - 1])[s[|s| - 1].pos := s[|s| - 1].hash]
  {
  }

  lemma DistinctInit(s: seq<Entry>)
    requires s != [] && Distinct(s)
    ensures Distinct(s[..|s| - 1]) && forall e :: e in s[..|s| - 1] ==> e.pos != s[|s| - 1].pos
  {
  }

  lemma PosSetSnoc(s: seq<Entry>, e: Entry)
    ensures PosSet(s + [e]) == PosSet(s) + {e.pos}
  {
    forall p | p in PosSet(s) + {e.pos}
      ensures p in PosSet(s + [e])
    {
      if p in PosSet(s) {
        var x :| x in s && x.pos == p;
        assert x in s + [e];
      } else {
        assert e in s + [e];
      }
    }
  }

  /** A sorted list is determined by its entries. */
  lemma {:induction false} SortedUnique(a: seq<Entry>, b: seq<Entry>)
    requires Sorted(a) && Sorted(b)
    requires forall e :: e in a <==> e in b
    ensures a == b
  {
    assert |a| > 0 ==> a[0] in a;
    assert |b| > 0 ==> b[0] in b;
    if |a| > 0 && |b| > 0 {
      var x, y := a[|a| - 1], b[|b| - 1];
      LastIsGreatest(a);
      LastIsGreatest(b);
      hide Sorted;
      assert x in a && y in b;
      assert x == y;
      var a', b' := a[..|a| - 1], b[..|b| - 1];
      SameBut(a, a', b, b', x);
      SortedUnique(a', b');
    }
  }

  lemma SameBut(a: seq<Entry>, a': seq<Entry>, b: seq<Entry>, b': seq<Entry>, x: Entry)
    requires a == a' + [x] && b == b' + [x] && x !in a' && x !in b' && forall e :: e in a <==> e in b
    ensures forall e :: e in a' <==> e in b'
  {
    assert forall e :: e in a <==> e in a' || e == x;
    assert forall e :: e in b <==> e in b' || e == x;
  }

  lemma LastIsGreatest(s: seq<Entry>)
    requires Sorted(s) && |s| > 0
    ensures Sorted(s[..|s| - 1]) && s == s[..|s| - 1] + [s[|s| - 1]]
    ensures forall e :: e in s[..|s| - 1] ==> e.pos < s[|s| - 1].pos
  {
  }

  /** An ascending list is determined by its elements. */
  lemma {:induction false} AscendingUnique(a: seq<nat>, b: seq<nat>)
    requires Ascending(a) && Ascending(b)
    requires forall x :: x in a <==> x in b
    ensures a == b
  {
    hide Ascending, Sorted, Plain;
    PlainFacts(a);
    PlainFacts(b);
    SortedUnique(Plain(a), Plain(b));
  }

  /** The positions, with no hashes. */
  ghost function Plain(a: seq<nat>): seq<Entry> {
    seq(|a|, i requires 0 <= i < |a| => Entry(a[i], Empty))
  }

  lemma {:induction false} PlainFacts(a: seq<nat>)
    ensures Ascending(a) ==> Sorted(Plain(a))
    ensures forall e :: e in Plain(a) <==> e.hash == Empty && e.pos in a
    ensures PositionsOf(Plain(a)) == a
  {
    var z := Plain(a);
    forall e: Entry | e.hash == Empty && e.pos in a
      ensures e in z
    {
      var i :| 0 <= i < |a| && a[i] == e.pos;
      assert z[i] == e;
    }
  }

  /** Put one entry in its place. */
  function Insert(s: seq<Entry>, e: Entry): seq<Entry> {
    if s == [] then [e]
    else if e.pos <= s[0].pos then [e] + s
    else [s[0]] + Insert(s[1..], e)
  }

  lemma {:induction false} InsertFacts(s: seq<Entry>, e: Entry)
    requires Sorted(s) && forall x :: x in s ==> x.pos != e.pos
    ensures Sorted(Insert(s, e))
    ensures forall x :: x in Insert(s, e) <==> x == e || x in s
  {
    if s != [] && e.pos > s[0].pos {
      var rest := s[1..];
      assert s == [s[0]] + rest;
      InsertFacts(rest, e);
      SortedCons(s[0], Insert(rest, e));
    } else if s != [] {
      SortedCons(e, s);
    }
  }

  lemma SortedCons(e: Entry, s: seq<Entry>)
    requires Sorted(s) && forall x :: x in s ==> e.pos < x.pos
    ensures Sorted([e] + s)
  {
    assert forall i :: 0 <= i < |s| ==> s[i] in s;
  }

  /** The library sort, by position. */
  function SortEntries(s: seq<Entry>): seq<Entry> {
    if s == [] then [] else Insert(SortEntries(s[1..]), s[0])
  }

  /** Sorting a list without repeated positions sorts it and keeps its entries. */
  lemma {:induction false} SortFacts(s: seq<Entry>)
    requires Distinct(s)
    ensures Sorted(SortEntries(s))
    ensures forall x :: x in SortEntries(s) <==> x in s
  {
    if s != [] {
      var rest := s[1..];
      assert s == [s[0]] + rest;
      SortFacts(rest);
      assert forall x :: x in rest ==> x.pos != s[0].pos;
      InsertFacts(SortEntries(rest), s[0]);
    }
  }

  /** In order by position, with repetitions. */
  ghost predicate WeaklySorted(s: seq<Entry>) {
    forall i, j :: 0 <= i < j < |s| ==> s[i].pos <= s[j].pos
  }

  lemma {:induction false} InsertWeakly(s: seq<Entry>, e: Entry)
    requires WeaklySorted(s)
    ensures WeaklySorted(Insert(s, e)) && |Insert(s, e)| == |s| + 1
    ensures forall x :: x in Insert(s, e) <==> x == e || x in s
  {
    if s != [] && e.pos > s[0].pos {
      var rest := s[1..];
      assert s == [s[0]] + rest;
      InsertWeakly(rest, e);
      WeaklyCons(s[0], Insert(rest, e));
    } else if s != [] {
      WeaklyCons(e, s);
    }
  }

  lemma WeaklyCons(e: Entry, s: seq<Entry>)
    requires WeaklySorted(s) && forall x :: x in s ==> e.pos <= x.pos
    ensures WeaklySorted([e] + s)
  {
    assert forall i :: 0 <= i < |s| ==> s[i] in s;
  }

  /** Sorting any list puts it in order and keeps its entries. */
  lemma {:induction false} SortWeakly(s: seq<Entry>)
    ensures WeaklySorted(SortEntries(s)) && |SortEntries(s)| == |s|
    ensures forall x :: x in SortEntries(s) <==> x in s
  {
    if s != [] {
      var rest := s[1..];
      assert s == [s[0]] + rest;
      SortWeakly(rest);
      InsertWeakly(SortEntries(rest), s[0]);
    }
  }

  /** A list in order stays as it is. */
  lemma {:induction false} SortedStays(s: seq<Entry>)
    requires WeaklySorted(s)
    ensures SortEntries(s) == s
  {
    if s != [] {
      SortedStays(s[1..]);
      assert s == [s[0]] + s[1..];
    }
  }

  /** Where the entries go depends on the positions alone. */
  lemma {:induction false} SortSamePlaces(s: seq<Entry>, t: seq<Entry>)
    requires PositionsOf(s) == PositionsOf(t)
    ensures PositionsOf(SortEntries(s)) == PositionsOf(SortEntries(t))
  {
    if s != [] {
      assert PositionsOf(s)[0] == PositionsOf(t)[0];
      assert PositionsOf(s[1..]) == PositionsOf(s)[1..] && PositionsOf(t[1..]) == PositionsOf(t)[1..];
      SortSamePlaces(s[1..], t[1..]);
      InsertSamePlaces(SortEntries(s[1..]), s[0], SortEntries(t[1..]), t[0]);
    }
  }

  lemma {:induction false} InsertSamePlaces(s: seq<Entry>, e: Entry, t: seq<Entry>, f: Entry)
    requires PositionsOf(s) == PositionsOf(t) && e.pos == f.pos
    ensures PositionsOf(Insert(s, e)) == PositionsOf(Insert(t, f))
  {
    if s != [] {
      assert PositionsOf(s)[0] == PositionsOf(t)[0];
      assert PositionsOf(s[1..]) == PositionsOf(s)[1..] && PositionsOf(t[1..]) == PositionsOf(t)[1..];
      if e.pos > s[0].pos {
        InsertSamePlaces(s[1..], e, t[1..], f);
        assert PositionsOf([s[0]] + Insert(s[1..], e)) == [s[0].pos] + PositionsOf(Insert(s[1..], e));
        assert PositionsOf([t[0]] + Insert(t[1..], f)) == [t[0].pos] + PositionsOf(Insert(t[1..], f));
      } else {
        assert PositionsOf([e] + s) == [e.pos] + PositionsOf(s) && PositionsOf([f] + t) == [f.pos] + PositionsOf(t);
      }
    } else {
      assert PositionsOf([e]) == [e.pos] && PositionsOf([f]) == [f.pos];
    }
  }

  /** Two sorted lists merged; where both have a position, the first list wins. */
  function Merged(a: seq<Entry>, b: seq<Entry>): seq<Entry> {
    if |a| == 0 then b
    else if |b| == 0 then a
    else if a[0].pos < b[0].pos then [a[0]] + Merged(a[1..], b)
    else if a[0].pos > b[0].pos then [b[0]] + Merged(a, b[1..])
    else [a[0]] + Merged(a[1..], b[1..])
  }

  lemma {:induction false} MergedFacts(a: seq<Entry>, b: seq<Entry>)
    requires Sorted(a) && Sorted(b)
    ensures Sorted(Merged(a, b))
    ensures forall e :: e in Merged(a, b) <==> e in a || (e in b && e.pos !in PositionsOf(a))
  {
    if a == [] || b == [] {
    } else if a[0].pos < b[0].pos {
      MergedFacts(a[1..], b);
      MergedStep(a, b, Merged(a[1..], b));
    } else if a[0].pos > b[0].pos {
      MergedFacts(a, b[1..]);
      MergedSkip(a, b, Merged(a, b[1..]));
    } else {
      MergedFacts(a[1..], b[1..]);
      assert b == [b[0]] + b[1..];
      MergedStep(a, b[1..], Merged(a[1..], b[1..]));
      assert PositionsOf(a)[0] == b[0].pos;
    }
  }

  lemma MergedStep(a: seq<Entry>, b: seq<Entry>, m: seq<Entry>)
    requires a != [] && Sorted(a) && Sorted(m) && forall e :: e in b ==> a[0].pos < e.pos
    requires forall e :: e in m <==> e in a[1..] || (e in b && e.pos !in PositionsOf(a[1..]))
    ensures Sorted([a[0]] + m)
    ensures forall e :: e in [a[0]] + m <==> e in a || (e in b && e.pos !in PositionsOf(a))
  {
    assert a == [a[0]] + a[1..];
    assert PositionsOf(a) == [a[0].pos] + PositionsOf(a[1..]);
    SortedCons(a[0], m);
  }

  lemma MergedSkip(a: seq<Entry>, b: seq<Entry>, m: seq<Entry>)
    requires b != [] && Sorted(a) && Sorted(b) && Sorted(m) && a != [] && b[0].pos < a[0].pos
    requires forall e :: e in m <==> e in a || (e in b[1..] && e.pos !in PositionsOf(a))
    ensures Sorted([b[0]] + m)
    ensures forall e :: e in [b[0]] + m <==> e in a || (e in b && e.pos !in PositionsOf(a))
  {
    assert b == [b[0]] + b[1..];
    assert forall i :: 0 <= i < |a| ==> b[0].pos < a[i].pos;
    SortedCons(b[0], m);
  }

  lemma Regroup(s: seq<Entry>, e: Entry, t: seq<Entry>)
    ensures s + ([e] + t) == s + [e] + t
  {
  }

  method MergeSorted(a: seq<Entry>, b: seq<Entry>) returns (c: seq<Entry>)
    ensures c == Merged(a, b)
    ensures Sorted(a) && Sorted(b) ==> Sorted(c) && forall e :: e in c <==>
              e in a || (e in b && e.pos !in PositionsOf(a))
  {
    c := [];
    var i, j := 0, 0;
    while i < |a| && j < |b|
      invariant 0 <= i <= |a| && 0 <= j <= |b|
      invariant c + Merged(a[i..], b[j..]) == Merged(a, b)
    {
      ghost var c0, x, y := c, a[i..], b[j..];
      assert x[1..] == a[i + 1..] && y[1..] == b[j + 1..] && x[0] == a[i] && y[0] == b[j];
      if a[i].pos < b[j].pos {
        c := c + [a[i]];
        i := i + 1;
      } else if a[i].pos > b[j].pos {
        c := c + [b[j]];
        j := j + 1;
      } else {
        c := c + [a[i]];
        i, j := i + 1, j + 1;
      }
      Regroup(c0, c[|c0|], Merged(a[i..], b[j..]));
    }
    if i >= |a| {
      c := c + b[j..];
    } else {
      c := c + a[i..];
    }
    if Sorted(a) && Sorted(b) { MergedFacts(a, b); }
  }

  /** A sorted list without the positions of an ascending one. */
  function WithoutPositions(a: seq<Entry>, b: seq<nat>): seq<Entry>
    decreases |a| + |b|
  {
    if |a| == 0 || |b| == 0 then a
    else if a[0].pos == b[0] then WithoutPositions(a[1..], b[1..])
    else if a[0].pos < b[0] then [a[0]] + WithoutPositions(a[1..], b)
    else WithoutPositions(a, b[1..])
  }

  lemma {:induction false} WithoutPositionsFacts(a: seq<Entry>, b: seq<nat>)
    requires Sorted(a) && Ascending(b)
    ensures Sorted(WithoutPositions(a, b))
    ensures forall e :: e in WithoutPositions(a, b) <==> e in a && e.pos !in b
    decreases |a| + |b|
  {
    if |a| > 0 && |b| > 0 {
      assert a == [a[0]] + a[1..] && b == [b[0]] + b[1..];
      if a[0].pos == b[0] {
        WithoutPositionsFacts(a[1..], b[1..]);
      } else if a[0].pos < b[0] {
        WithoutPositionsFacts(a[1..], b);
        SortedCons(a[0], WithoutPositions(a[1..], b));
      } else {
        WithoutPositionsFacts(a, b[1..]);
      }
    }
  }

  lemma {:induction false} WithoutPositionsStep(a: seq<Entry>, b: seq<nat>, i: nat, j: nat)
    requires i < |a| && j < |b|
    ensures var all := a[..i] + WithoutPositions(a[i..], b[j..]);
            if a[i].pos == b[j] then
              var a' := a[..i] + a[i + 1..];
              a'[..i] + WithoutPositions(a'[i..], b[j + 1..]) == all
            else if a[i].pos < b[j] then a[..i + 1] + WithoutPositions(a[i + 1..], b[j..]) == all
            else a[..i] + WithoutPositions(a[i..], b[j + 1..]) == all
  {
    assert a[i..][1..] == a[i + 1..] && b[j..][1..] == b[j + 1..] && a[i..][0] == a[i] && b[j..][0] == b[j];
    if a[i].pos == b[j] {
      var a' := a[..i] + a[i + 1..];
      assert a'[..i] == a[..i] && a'[i..] == a[i + 1..];
    } else if a[i].pos < b[j] {
      assert a[..i + 1] == a[..i] + [a[i]];
      Regroup(a[..i], a[i], WithoutPositions(a[i + 1..], b[j..]));
    }
  }

  lemma WithoutPositionsEnd(a: seq<Entry>, b: seq<nat>)
    ensures |a| == 0 || |b| == 0 ==> WithoutPositions(a, b) == a
  {
  }

  /** Remove from a sorted list the positions of an ascending one. */
  method SubtractSorted(a0: seq<Entry>, b: seq<nat>) returns (a: seq<Entry>)
    requires Sorted(a0) && Ascending(b)
    ensures Sorted(a)
    ensures forall e :: e in a <==> e in a0 && e.pos !in b
  {
    hide WithoutPositions;
    a := a0;
    var i: nat, j: nat := 0, 0;
    assert a[..0] + WithoutPositions(a[0..], b[0..]) ==
           WithoutPositions(a0, b) by { assert a[0..] == a && b[0..] == b && a[..0] == []; }
    while i < |a| && j < |b|
      invariant i <= |a| && j <= |b|
      invariant a[..i] + WithoutPositions(a[i..], b[j..]) == WithoutPositions(a0, b)
      decreases |a| + |b| - j - i
    {
      WithoutPositionsStep(a, b, i, j);
      if a[i].pos == b[j] {
        a := a[..i] + a[i + 1..];
        j := j + 1;
      } else if a[i].pos < b[j] {
        i := i + 1;
      } else {
        j := j + 1;
      }
    }
    WithoutPositionsEnd(a[i..], b[j..]);
    assert a[..i] + a[i..] == a;
    WithoutPositionsFacts(a0, b);
  }

  /** The entries at some positions. */
  function Keep(a: seq<Entry>, keep: set<nat>): seq<Entry> {
    if a == [] then []
    else
      var init, last := Keep(a[..|a| - 1], keep), a[|a| - 1];
      if last.pos in keep then init + [last] else init
  }

  lemma {:induction false} KeepFacts(a: seq<Entry>, keep: set<nat>)
    requires Sorted(a)
    ensures Sorted(Keep(a, keep))
    ensures forall e :: e in Keep(a, keep) <==> e in a && e.pos in keep
  {
    if a != [] {
      var init := a[..|a| - 1];
      assert a == init + [a[|a| - 1]];
      KeepFacts(init, keep);
      assert forall k :: 0 <= k < |Keep(init, keep)| ==> Keep(init, keep)[k] in init;
    }
  }

  /** The entries of a sorted list whose positions are in an ascending one. */
  method SubsetSorted(a: seq<Entry>, b: seq<nat>) returns (c: seq<Entry>)
    requires Sorted(a) && Ascending(b)
    ensures Sorted(c)
    ensures forall e :: e in c <==> e in a && e.pos in b
  {
    ghost var keep := Elems(b);
    c := [];
    var i, j := 0, 0;
    while i < |a| && j < |b|
      invariant 0 <= i <= |a| && 0 <= j <= |b|
      invariant c == Keep(a[..i], keep)
      invariant forall k, x :: i <= k < |a| && 0 <= x < j ==> b[x] < a[k].pos
      decreases |a| + |b| - j - i
    {
      assert a[..i + 1][..i] == a[..i];
      if a[i].pos == b[j] {
        c := c + [a[i]];
        i, j := i + 1, j + 1;
      } else if a[i].pos > b[j] {
        j := j + 1;
      } else {
        i := i + 1;
      }
    }
    KeepFacts(a[..i], keep);
    assert a == a[..i] + a[i..];
  }

  /** Two ascending lists of positions merged. */
  function MergedPositions(a: seq<nat>, b: seq<nat>): seq<nat> {
    if |a| == 0 then b
    else if |b| == 0 then a
    else if a[0] < b[0] then [a[0]] + MergedPositions(a[1..], b)
    else if a[0] > b[0] then [b[0]] + MergedPositions(a, b[1..])
    else [a[0]] + MergedPositions(a[1..], b[1..])
  }

  lemma {:induction false} MergedPositionsFacts(a: seq<nat>, b: seq<nat>)
    requires Ascending(a) && Ascending(b)
    ensures Ascending(MergedPositions(a, b))
    ensures forall x :: x in MergedPositions(a, b) <==> x in a || x in b
  {
    if |a| > 0 && |b| > 0 {
      assert a == [a[0]] + a[1..] && b == [b[0]] + b[1..];
      if a[0] < b[0] {
        MergedPositionsFacts(a[1..], b);
        AscendingCons(a[0], MergedPositions(a[1..], b));
      } else if a[0] > b[0] {
        MergedPositionsFacts(a, b[1..]);
        AscendingCons(b[0], MergedPositions(a, b[1..]));
      } else {
        MergedPositionsFacts(a[1..], b[1..]);
        AscendingCons(a[0], MergedPositions(a[1..], b[1..]));
      }
    }
  }

  lemma AscendingCons(p: nat, s: seq<nat>)
    requires Ascending(s) && forall x :: x in s ==> p < x
    ensures Ascending([p] + s)
  {
    assert forall i :: 0 <= i < |s| ==> s[i] in s;
  }

  lemma RegroupPositions(s: seq<nat>, p: nat, t: seq<nat>)
    ensures s + ([p] + t) == s + [p] + t
  {
  }

  method MergeAscending(a: seq<nat>, b: seq<nat>) returns (c: seq<nat>)
    requires Ascending(a) && Ascending(b)
    ensures Ascending(c)
    ensures forall x :: x in c <==> x in a || x in b
  {
    c := [];
    var i, j := 0, 0;
    while i < |a| && j < |b|
      invariant 0 <= i <= |a| && 0 <= j <= |b|
      invariant c + MergedPositions(a[i..], b[j..]) == MergedPositions(a, b)
    {
      ghost var c0, x, y := c, a[i..], b[j..];
      assert x[1..] == a[i + 1..] && y[1..] == b[j + 1..] && x[0] == a[i] && y[0] == b[j];
      if a[i] < b[j] {
        c := c + [a[i]];
        i := i + 1;
      } else if a[i] > b[j] {
        c := c + [b[j]];
        j := j + 1;
      } else {
        c := c + [a[i]];
        i, j := i + 1, j + 1;
      }
      RegroupPositions(c0, c[|c0|], MergedPositions(a[i..], b[j..]));
    }
    if i >= |a| {
      c := c + b[j..];
    } else {
      c := c + a[i..];
    }
    MergedPositionsFacts(a, b);
  }

  /** A list of positions without those of another, once for each time they occur there; both
      in order. */
  function Without(a: seq<nat>, b: seq<nat>): seq<nat>
    decreases |a| + |b|
  {
    if |a| == 0 || |b| == 0 then a
    else if a[0] == b[0] then Without(a[1..], b[1..])
    else if a[0] < b[0] then [a[0]] + Without(a[1..], b)
    else Without(a, b[1..])
  }

  lemma {:induction false} WithoutFacts(a: seq<nat>, b: seq<nat>)
    requires Ascending(a) && Ascending(b)
    ensures Ascending(Without(a, b))
    ensures forall x :: x in Without(a, b) <==> x in a && x !in b
    decreases |a| + |b|
  {
    if |a| > 0 && |b| > 0 {
      assert a == [a[0]] + a[1..] && b == [b[0]] + b[1..];
      if a[0] == b[0] {
        WithoutFacts(a[1..], b[1..]);
      } else if a[0] < b[0] {
        WithoutFacts(a[1..], b);
        AscendingCons(a[0], Without(a[1..], b));
      } else {
        WithoutFacts(a, b[1..]);
      }
    }
  }

  lemma {:induction false} WithoutStep(a: seq<nat>, b: seq<nat>, i: nat, j: nat)
    requires i < |a| && j < |b|
    ensures var all := a[..i] + Without(a[i..], b[j..]);
            if a[i] == b[j] then var a' := a[..i] + a[i + 1..]; a'[..i] + Without(a'[i..], b[j + 1..]) == all
            else if a[i] < b[j] then a[..i + 1] + Without(a[i + 1..], b[j..]) == all
            else a[..i] + Without(a[i..], b[j + 1..]) == all
  {
    assert a[i..][1..] == a[i + 1..] && b[j..][1..] == b[j + 1..] && a[i..][0] == a[i] && b[j..][0] == b[j];
    if a[i] == b[j] {
      var a' := a[..i] + a[i + 1..];
      assert a'[..i] == a[..i] && a'[i..] == a[i + 1..];
    } else if a[i] < b[j] {
      assert a[..i + 1] == a[..i] + [a[i]];
      RegroupPositions(a[..i], a[i], Without(a[i + 1..], b[j..]));
    }
  }

  lemma WithoutEnd(a: seq<nat>, b: seq<nat>)
    ensures |a| == 0 || |b| == 0 ==> Without(a, b) == a
  {
  }

  /** Remove from a list of positions those of another. */
  method SubtractAscending(a0: seq<nat>, b: seq<nat>) returns (a: seq<nat>)
    ensures a == Without(a0, b)
    ensures Ascending(a0) && Ascending(b) ==> Ascending(a) && forall x :: x in a <==> x in a0 && x !in b
  {
    hide Without;
    a := a0;
    var i: nat, j: nat := 0, 0;
    assert a[..0] + Without(a[0..], b[0..]) == Without(a0, b) by { assert a[0..] == a && b[0..] == b && a[..0] == []; }
    while i < |a| && j < |b|
      invariant i <= |a| && j <= |b|
      invariant a[..i] + Without(a[i..], b[j..]) == Without(a0, b)
      decreases |a| + |b| - j - i
    {
      WithoutStep(a, b, i, j);
      if a[i] == b[j] {
        a := a[..i] + a[i + 1..];
        j := j + 1;
      } else if a[i] < b[j] {
        i := i + 1;
      } else {
        j := j + 1;
      }
    }
    WithoutEnd(a[i..], b[j..]);
    assert a[..i] + a[i..] == a;
    if Ascending(a0) && Ascending(b) { WithoutFacts(a0, b); }
  }

  ghost predicate NoDuplicates(s: seq<nat>) {
    forall i, j :: 0 <= i < j < |s| ==> s[i] != s[j]
  }

  /** In order, with repetitions. */
  ghost predicate InOrder(s: seq<nat>) {
    forall i, j :: 0 <= i < j < |s| ==> s[i] <= s[j]
  }

  function InsertPosition(s: seq<nat>, p: nat): seq<nat> {
    if |s| == 0 || p <= s[0] then [p] + s else [s[0]] + InsertPosition(s[1..], p)
  }

  /** The library sort of positions. */
  function SortPositions(s: seq<nat>): seq<nat> {
    if |s| == 0 then [] else InsertPosition(SortPositions(s[1..]), s[0])
  }

  lemma {:induction false} InsertPositionFacts(s: seq<nat>, p: nat)
    requires InOrder(s)
    ensures InOrder(InsertPosition(s, p)) && |InsertPosition(s, p)| == |s| + 1
    ensures forall x :: x in InsertPosition(s, p) <==> x == p || x in s
    ensures Ascending(InsertPosition(s, p)) <==> Ascending(s) && p !in s
  {
    if |s| > 0 && p > s[0] {
      assert s == [s[0]] + s[1..];
      InsertPositionFacts(s[1..], p);
      InOrderCons(s[0], InsertPosition(s[1..], p));
      InOrderCons(s[0], s[1..]);
    } else {
      InOrderCons(p, s);
    }
  }

  lemma InOrderCons(p: nat, s: seq<nat>)
    requires InOrder(s) && forall x :: x in s ==> p <= x
    ensures InOrder([p] + s)
    ensures Ascending([p] + s) <==> Ascending(s) && p !in s
  {
    InOrderHead(p, s);
    if Ascending([p] + s) { AscendingHead(p, s); }
    if Ascending(s) && p !in s { AscendingCons(p, s); }
  }

  lemma InOrderHead(p: nat, s: seq<nat>)
    requires InOrder(s) && forall x :: x in s ==> p <= x
    ensures InOrder([p] + s)
  {
    var t := [p] + s;
    assert forall i :: 0 < i < |t| ==> t[i] == s[i - 1] && t[i] in s;
  }

  lemma AscendingHead(p: nat, s: seq<nat>)
    requires Ascending([p] + s)
    ensures Ascending(s) && forall x :: x in s ==> p < x
  {
    var t := [p] + s;
    forall i, j | 0 <= i < j < |s|
      ensures s[i] < s[j]
    {
      assert t[i + 1] < t[j + 1];
    }
    forall i | 0 <= i < |s|
      ensures p < s[i]
    {
      assert t[0] < t[i + 1];
    }
  }

  lemma {:induction false} SortPositionsFacts(s: seq<nat>)
    ensures InOrder(SortPositions(s)) && |SortPositions(s)| == |s|
    ensures Elems(SortPositions(s)) == Elems(s)
    ensures Ascending(SortPositions(s)) <==> NoDuplicates(s)
  {
    if |s| > 0 {
      hide InOrder, Ascending, NoDuplicates, InsertPosition, Elems;
      SortPositionsFacts(s[1..]);
      var t := SortPositions(s[1..]);
      InsertPositionFacts(t, s[0]);
      InsertedElems(s, t, InsertPosition(t, s[0]));
      NoDuplicatesCons(s);
    }
  }

  lemma InsertedElems(s: seq<nat>, t: seq<nat>, r: seq<nat>)
    requires |s| > 0 && Elems(t) == Elems(s[1..]) && forall x :: x in r <==> x == s[0] || x in t
    ensures Elems(r) == Elems(s) && (s[0] in t <==> s[0] in s[1..])
  {
    assert s == [s[0]] + s[1..];
    assert forall x :: x in t <==> x in Elems(t);
    assert forall x :: x in s[1..] <==> x in Elems(s[1..]);
  }

  lemma NoDuplicatesCons(s: seq<nat>)
    requires |s| > 0
    ensures NoDuplicates(s) <==> NoDuplicates(s[1..]) && s[0] !in s[1..]
  {
    assert forall i :: 0 < i < |s| ==> s[i] == s[1..][i - 1];
    if NoDuplicates(s[1..]) && s[0] !in s[1..] {
      forall i, j | 0 <= i < j < |s|
        ensures s[i] != s[j]
      {
        if i > 0 { assert s[1..][i - 1] != s[1..][j - 1]; } else { assert s[j] in s[1..]; }
      }
    }
  }
}
