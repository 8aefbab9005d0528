/** From the targets and a proof up to the roots. */
module Calculation {
  import opened Hashes
  import opened Options
  import opened Positions
  import opened Geometry
  import opened Layouts
  import opened Shape
  import opened Entries
  import opened Streaming
  import opened Passes

  /** An inclusion proof: the positions of the leaves, and the hashes needed to
      hash from them up to the roots. */
  datatype Proof = Proof(targets: seq<nat>, proof: seq<Hash>)

  /** The hash a position gets from hashes given for the targets and for the proof
      positions, by recursion from the position down. */
  ghost function Calc(g: Layout, t: map<nat, Hash>, given: map<nat, Hash>, p: nat): Hash
    decreases p
  {
    if p in t then t[p]
    else if TouchedBelow(g, t.Keys, p) then
      Combine(Calc(g, t, given, g.Left(p)), Calc(g, t, given, g.Right(p)))
    else if p in given then given[p]
    else Empty
  }

  ghost function CalcAll(g: Layout, t: map<nat, Hash>, given: map<nat, Hash>, ps: seq<nat>): (r: seq<Hash>)
    ensures |r| == |ps| && forall i :: 0 <= i < |ps| ==> r[i] == Calc(g, t, given, ps[i])
  {
    seq(|ps|, i requires 0 <= i < |ps| => Calc(g, t, given, ps[i]))
  }

  /** Every entry has the hash its position gets. */
  ghost predicate Hashed(g: Layout, t: map<nat, Hash>, given: map<nat, Hash>, s: seq<Entry>) {
    forall i :: 0 <= i < |s| ==> s[i].hash == Calc(g, t, given, s[i].pos)
  }

  /** The hash of a parent from the hashes of a touched child and its sibling. */
  lemma {:induction false} CalcUp(g: Layout, t: map<nat, Hash>, given: map<nat, Hash>, p: nat)
    requires ValidTargets(g, t.Keys) && Touched(g, t.Keys, p) && !g.IsRoot(p)
    ensures NextHash(p, Calc(g, t, given, p), Calc(g, t, given, Sibling(p))) == Calc(g, t, given, g.Up(p))
  {
    hide Calc, Touched;
    TouchedParent(g, t.Keys, p);
    g.NonRootFacts(p);
    CalcBelow(g, t, given, g.Up(p));
  }

  lemma {:induction false} CalcBelow(g: Layout, t: map<nat, Hash>, given: map<nat, Hash>, p: nat)
    requires ValidTargets(g, t.Keys) && TouchedBelow(g, t.Keys, p)
    ensures p >= g.m && p in g.nodes && p !in t
    ensures Calc(g, t, given, p) == Combine(Calc(g, t, given, g.Left(p)), Calc(g, t, given, g.Right(p)))
  {
  }

  lemma {:induction false} CalcGiven(g: Layout, t: map<nat, Hash>, given: map<nat, Hash>, p: nat)
    requires g.WellShaped() && p in g.nodes && !Touched(g, t.Keys, p) && p in given
    ensures Calc(g, t, given, p) == given[p]
  {
  }

  /** Each pass goes on from the lists of the shorter pass. */
  lemma {:induction false} PlanPrefix(g: Layout, t: set<nat>, k: nat, j: nat)
    requires k <= j
    ensures PlanUpTo(g, t, k).proof <= PlanUpTo(g, t, j).proof
    decreases j
  {
    if k < j {
      PlanPrefix(g, t, k, j - 1);
    }
  }

  /** The next proof hash is the one given for the sibling it is used for. */
  lemma {:induction false} NextProofHash(g: Layout, t: map<nat, Hash>, proof: seq<Hash>, k: nat, j: nat, p: nat)
    requires g.WellShaped() && k <= j <= g.m && |proof| >= |PlanFor(g, t.Keys).proof|
    requires PlanUpTo(g, t.Keys, j).proof == PlanUpTo(g, t.Keys, k).proof + [p]
    ensures |PlanUpTo(g, t.Keys, k).proof| < |proof|
    ensures Calc(g, t, MapOf(Zip(PlanFor(g, t.Keys).proof, proof)), p) == proof[|PlanUpTo(g, t.Keys, k).proof|]
  {
    hide Calc, Touched, PlanUpTo, MapOf;
    var all, i := PlanFor(g, t.Keys).proof, |PlanUpTo(g, t.Keys, k).proof|;
    PlanPrefix(g, t.Keys, j, g.m);
    PlanMeaning(g, t.Keys, g.m);
    PlanAscending(g, t.Keys, g.m);
    assert p == PlanUpTo(g, t.Keys, j).proof[i] == all[i];
    assert p in all;
    MapOfFacts(Zip(all, proof));
    assert Zip(all, proof)[i] in Zip(all, proof);
    CalcGiven(g, t, MapOf(Zip(all, proof)), p);
  }

  /** The hashes the targets start from: none when they are being deleted. */
  function TargetHashes(delHashes: Option<seq<Hash>>, proof: Proof): seq<Hash> {
    match delHashes
    case None => seq(|proof.targets|, _ => Empty)
    case Some(hashes) => hashes
  }

  /** The targets with their hashes. */
  ghost function TargetMap(delHashes: Option<seq<Hash>>, proof: Proof): map<nat, Hash>
    requires delHashes.Some? ==> |delHashes.value| == |proof.targets|
  {
    MapOf(Zip(proof.targets, TargetHashes(delHashes, proof)))
  }

  /** The proof hashes with the positions they belong to. */
  ghost function GivenMap(g: Layout, proof: Proof): map<nat, Hash>
    requires |proof.proof| >= |PlanFor(g, Elems(proof.targets)).proof|
  {
    MapOf(Zip(PlanFor(g, Elems(proof.targets)).proof, proof.proof))
  }

  /** What the calculation demands of its caller: targets that are nodes of the
      forest, none twice and none above another, with a hash for each, and as many
      proof hashes as it will fetch. */
  ghost predicate WellFormed(g: Layout, n: nat, delHashes: Option<seq<Hash>>, proof: Proof) {
    && LayoutFor(g, TreeRows(n), n)
    && NoDuplicates(proof.targets) && ValidTargets(g, Elems(proof.targets))
    && (delHashes.Some? ==> |delHashes.value| == |proof.targets|)
    && |proof.proof| >= |PlanFor(g, Elems(proof.targets)).proof|
  }

  /** What is set up before the pass: sorted targets with their hashes. */
  lemma {:induction false} SortedTargets(g: Layout, n: nat, delHashes: Option<seq<Hash>>, proof: Proof,
                                         toProve: seq<Entry>)
    requires WellFormed(g, n, delHashes, proof)
    requires toProve == SortEntries(Zip(proof.targets, TargetHashes(delHashes, proof)))
    ensures Sorted(toProve) && Ascending(PositionsOf(toProve))
    ensures Elems(PositionsOf(toProve)) == Elems(proof.targets) == TargetMap(delHashes, proof).Keys
    ensures forall e :: e in toProve <==>
              e.pos in TargetMap(delHashes, proof) && e.hash == TargetMap(delHashes, proof)[e.pos]
  {
    hide ValidTargets, PlanFor, LayoutFor, MapOf, SortEntries, TargetHashes;
    TargetHashesCount(delHashes, proof);
    var zipped := Zip(proof.targets, TargetHashes(delHashes, proof));
    SortFacts(zipped);
    MapOfFacts(zipped);
    ZipPositions(proof.targets, TargetHashes(delHashes, proof));
    SamePositions(zipped, toProve);
  }

  lemma TargetHashesCount(delHashes: Option<seq<Hash>>, proof: Proof)
    requires delHashes.Some? ==> |delHashes.value| == |proof.targets|
    ensures |TargetHashes(delHashes, proof)| == |proof.targets|
  {
  }

  lemma ZipPositions(positions: seq<nat>, hashes: seq<Hash>)
    requires |positions| <= |hashes|
    ensures PosSet(Zip(positions, hashes)) == Elems(positions)
  {
    var z := Zip(positions, hashes);
    forall x | x in positions
      ensures x in PosSet(z)
    {
      var i :| 0 <= i < |positions| && positions[i] == x;
      assert z[i] in z;
    }
  }

  lemma SamePositions(a: seq<Entry>, b: seq<Entry>)
    requires forall e :: e in b <==> e in a
    ensures Elems(PositionsOf(b)) == PosSet(a)
  {
    forall x
      ensures x in PositionsOf(b) <==> x in PosSet(a)
    {
      if x in PosSet(a) {
        var e :| e in a && e.pos == x;
        var i :| 0 <= i < |b| && b[i] == e;
        assert PositionsOf(b)[i] == x;
      }
      if x in PositionsOf(b) {
        var i :| 0 <= i < |b| && PositionsOf(b)[i] == x;
        assert b[i] in b;
      }
    }
  }

  /** The state of the pass after `k` pairs, with hashes: both queues hold the hashes
      their positions get, and what was found so far follows the plan. */
  ghost predicate InPass(g: Layout, t: map<nat, Hash>, given: map<nat, Hash>, toProve: seq<Entry>, next: seq<Entry>,
                         i: nat, j: nat, k: nat, proofIdx: nat, roots: seq<Hash>)
  {
    && AtPair(g, PositionsOf(toProve), PositionsOf(next), i, j, k)
    && Elems(PositionsOf(toProve)) == t.Keys
    && Sorted(toProve) && Hashed(g, t, given, toProve) && Hashed(g, t, given, next)
    && proofIdx == |PlanUpTo(g, t.Keys, k).proof|
    && roots == CalcAll(g, t, given, PlanUpTo(g, t.Keys, k).roots)
  }

  /** One step of the pass: the hashes it fetches are those of the position taken and
      of its sibling, and the state it leaves. */
  lemma {:induction false} HashStep(g: Layout, t: map<nat, Hash>, proof: seq<Hash>, toProve: seq<Entry>,
                                    next: seq<Entry>, i: nat, j: nat, k: nat, proofIdx: nat, roots: seq<Hash>, nx: Next)
    requires |proof| >= |PlanFor(g, t.Keys).proof|
    requires InPass(g, t, MapOf(Zip(PlanFor(g, t.Keys).proof, proof)), toProve, next, i, j, k, proofIdx, roots)
    requires nx == GetNextPos(PositionsOf(toProve), PositionsOf(next), i, j) && nx.idx != -1
    ensures nx.pos in g.nodes && k <= nx.pos / 2 < g.m
    ensures var given := MapOf(Zip(PlanFor(g, t.Keys).proof, proof));
            var hash, sibHash := Calc(g, t, given, nx.pos), Calc(g, t, given, Sibling(nx.pos));
            var i1, j1, k1 := Advance(nx, 0, i), Advance(nx, 1, j), nx.pos / 2 + 1;
            && (nx.idx == 0 ==> i < |toProve| && toProve[i].hash == hash)
            && (nx.idx == 1 ==> j < |next| && next[j].hash == hash)
            && if g.IsRoot(nx.pos) then
                 && nx.sibIdx == -1
                 && InPass(g, t, given, toProve, next, i1, j1, k1, proofIdx, roots + [hash])
               else
                 && (nx.sibIdx == 0 ==> i1 <= |toProve| && toProve[i1 - 1].hash == sibHash)
                 && (nx.sibIdx == 1 ==> j1 <= |next| && next[j1 - 1].hash == sibHash)
                 && (nx.sibIdx == -1 ==> proofIdx < |proof| && proof[proofIdx] == sibHash)
                 && InPass(g, t, given, toProve, next + [Entry(g.Up(nx.pos), NextHash(nx.pos, hash, sibHash))],
                           i1, j1, k1, if nx.sibIdx == -1 then proofIdx + 1 else proofIdx, roots)
  {
    hide PlanUpTo, PlanFor, Touched, GetNextPos, MapOf, Calc, NextHash, Layout.WellShaped;
    var given := MapOf(Zip(PlanFor(g, t.Keys).proof, proof));
    var targets, ps := PositionsOf(toProve), PositionsOf(next);
    PassStep(g, targets, ps, i, j, k, nx);
    if g.IsRoot(nx.pos) {
      assert roots + [Calc(g, t, given, nx.pos)] == CalcAll(g, t, given, PlanUpTo(g, t.Keys, nx.pos / 2 + 1).roots);
    } else {
      CalcUp(g, t, given, nx.pos);
      var e := Entry(g.Up(nx.pos), Calc(g, t, given, g.Up(nx.pos)));
      assert PositionsOf(next + [e]) == ps + [g.Up(nx.pos)];
      if nx.sibIdx == -1 {
        NextProofHash(g, t, proof, k, nx.pos / 2 + 1, Sibling(nx.pos));
      }
    }
  }

  ghost function ItemsOf(s: seq<Entry>): (r: seq<Item<Hash>>)
    ensures |r| == |s| && forall i :: 0 <= i < |s| ==> r[i] == Item(s[i].pos, s[i].hash)
  {
    seq(|s|, i requires 0 <= i < |s| => Item(s[i].pos, s[i].hash))
  }

  /** The targets with their hashes, in order. */
  ghost function Sorted0(delHashes: Option<seq<Hash>>, proof: Proof): seq<Entry>
    requires delHashes.Some? ==> |delHashes.value| == |proof.targets|
  {
    TargetHashesCount(delHashes, proof);
    SortEntries(Zip(proof.targets, TargetHashes(delHashes, proof)))
  }

  /** The targets are nodes of the forest, with a hash for each. */
  ghost predicate InForestTargets(g: Layout, n: nat, delHashes: Option<seq<Hash>>, proof: Proof) {
    && LayoutFor(g, TreeRows(n), n) && (forall i :: 0 <= i < |proof.targets| ==> proof.targets[i] in g.nodes)
    && (delHashes.Some? ==> |delHashes.value| == |proof.targets|)
  }

  lemma {:induction false} SortedNodes(g: Layout, n: nat, delHashes: Option<seq<Hash>>, proof: Proof)
    requires InForestTargets(g, n, delHashes, proof)
    ensures g.WellShaped() && WeaklySorted(Sorted0(delHashes, proof)) && InNodes(g, ItemsOf(Sorted0(delHashes, proof)))
  {
    hide LayoutFor, SortEntries, Layout.WellShaped, TargetHashes;
    LayoutFits(g, TreeRows(n), n);
    TargetHashesCount(delHashes, proof);
    var z := Zip(proof.targets, TargetHashes(delHashes, proof));
    SortWeakly(z);
    var s := Sorted0(delHashes, proof);
    forall i | 0 <= i < |s|
      ensures s[i].pos in g.nodes
    {
      assert s[i] in s && s[i] in z;
      var k :| 0 <= k < |z| && z[k] == s[i];
    }
  }

  /** The hashes a proof leads to, for any targets in the forest; none when it has too few hashes. */
  ghost function Run(g: Layout, n: nat, delHashes: Option<seq<Hash>>, proof: Proof): Option<seq<Hash>>
    requires InForestTargets(g, n, delHashes, proof)
  {
    SortedNodes(g, n, delHashes, proof);
    Pass(g, ItemsOf(Sorted0(delHashes, proof)), [], proof.proof, NextHash)
  }

  /** What the calculation demands of its caller: targets that are nodes of the forest, in any order, repeated or one
      above another, with a hash for each; and as many proof hashes as it will fetch. */
  ghost predicate Calculable(g: Layout, n: nat, delHashes: Option<seq<Hash>>, proof: Proof) {
    InForestTargets(g, n, delHashes, proof) && Run(g, n, delHashes, proof).Some?
  }

  /** The queues of the pass: in order, in the forest, and nothing left in them is before `last`. */
  ghost predicate Queues(g: Layout, toProve: seq<Entry>, next: seq<Entry>, i: nat, j: nat, last: nat) {
    && i <= |toProve| && j <= |next| && WeaklySorted(toProve) && WeaklySorted(next)
    && (forall x :: 0 <= x < |toProve| ==> toProve[x].pos in g.nodes) &&
       (forall x :: 0 <= x < |next| ==> next[x].pos in g.nodes)
    && (forall x :: i <= x < |toProve| ==> last <= toProve[x].pos) &&
       (forall x :: j <= x < |next| ==> last <= next[x].pos)
    && (|next| > 0 ==> next[|next| - 1].pos <= g.Up(last))
  }

  ghost function Tail(s: seq<Entry>, i: nat): seq<Item<Hash>>
    requires i <= |s|
  {
    ItemsOf(s[i..])
  }

  /** What is next in the queues, and what a step takes from their tails. */
  lemma {:induction false} TakeTails(toProve: seq<Entry>, next: seq<Entry>, i: nat, j: nat, nx: Next)
    requires i <= |toProve| && j <= |next| && nx == GetNextPos(PositionsOf(toProve), PositionsOf(next), i, j)
    ensures nx.idx == -1 <==> |Tail(toProve, i)| + |Tail(next, j)| == 0
    ensures nx.idx != -1 ==>
              var i1, j1 := Advance(nx, 0, i), Advance(nx, 1, j);
              var t := Take(Tail(toProve, i), Tail(next, j));
              && i1 <= |toProve| && j1 <= |next| && t.a == Tail(toProve, i1) && t.b == Tail(next, j1)
              && t.first == (if nx.idx == 0 then Item(nx.pos, toProve[i].hash) else Item(nx.pos, next[j].hash))
              && (t.sibling.None? <==> nx.sibIdx == -1)
              && (nx.sibIdx == 0 ==> t.sibling.value.value == toProve[i1 - 1].hash)
              && (nx.sibIdx == 1 ==> t.sibling.value.value == next[j1 - 1].hash)
  {
    var a, b := Tail(toProve, i), Tail(next, j);
    assert Places(a) == PositionsOf(toProve)[i..] && Places(b) == PositionsOf(next)[j..];
    NextOfTails(PositionsOf(toProve), PositionsOf(next), i, j);
    hide GetNextPos, Places, PositionsOf;
    TailRest(toProve, i);
    TailRest(next, j);
    if nx.idx == 0 { TailRest(toProve, i + 1); }
    if nx.idx == 1 { TailRest(next, j + 1); }
  }

  lemma TailRest(s: seq<Entry>, i: nat)
    requires i <= |s|
    ensures |Tail(s, i)| == |s| - i
    ensures i < |s| ==> Tail(s, i)[0] == Item(s[i].pos, s[i].hash) && Tail(s, i)[1..] == Tail(s, i + 1)
  {
  }

  lemma {:induction false} NextOfTails(a: seq<nat>, b: seq<nat>, i: nat, j: nat)
    requires i <= |a| && j <= |b|
    ensures GetNextPos(a[i..], b[j..], 0, 0) == GetNextPos(a, b, i, j)
  {
  }

  /** Nothing in either queue is before the position taken next. */
  lemma {:induction false} LeastInOrder(a: seq<nat>, b: seq<nat>, i: nat, j: nat)
    requires InOrder(a) && InOrder(b) && i <= |a| && j <= |b| && GetNextPos(a, b, i, j).idx != -1
    ensures var nx := GetNextPos(a, b, i, j);
            && i <= Advance(nx, 0, i) <= |a| && j <= Advance(nx, 1, j) <= |b|
            && (forall x :: i <= x < |a| ==> nx.pos <= a[x]) && (forall x :: j <= x < |b| ==> nx.pos <= b[x])
            && ((i < |a| && nx.pos == a[i]) || (j < |b| && nx.pos == b[j]))
  {
  }

  lemma WeakPlaces(s: seq<Entry>)
    requires WeaklySorted(s)
    ensures InOrder(PositionsOf(s))
  {
  }

  /** One step keeps the queues in order. */
  lemma {:induction false} QueueStep(g: Layout, toProve: seq<Entry>, next: seq<Entry>, i: nat, j: nat, last: nat,
                                     nx: Next, hash: Hash)
    requires g.WellShaped() && Queues(g, toProve, next, i, j, last)
    requires nx == GetNextPos(PositionsOf(toProve), PositionsOf(next), i, j) && nx.idx != -1
    ensures nx.pos in g.nodes && last <= nx.pos
    ensures var i1, j1 := Advance(nx, 0, i), Advance(nx, 1, j);
            && Queues(g, toProve, next, i1, j1, nx.pos)
            && (!g.IsRoot(nx.pos) ==> Queues(g, toProve, next + [Entry(g.Up(nx.pos), hash)], i1, j1, nx.pos))
  {
    hide Layout.WellShaped, GetNextPos, Advance, InOrder, Layout.IsRoot;
    WeakPlaces(toProve);
    WeakPlaces(next);
    LeastInOrder(PositionsOf(toProve), PositionsOf(next), i, j);
    var i1, j1 := Advance(nx, 0, i), Advance(nx, 1, j);
    assert forall x :: i <= x < |toProve| ==> nx.pos <= PositionsOf(toProve)[x];
    assert forall x :: j <= x < |next| ==> nx.pos <= PositionsOf(next)[x];
    if !g.IsRoot(nx.pos) {
      g.NonRootFacts(nx.pos);
      ParentLast(g, next, j1, nx.pos, last, hash);
    }
  }

  lemma {:induction false} ParentLast(g: Layout, next: seq<Entry>, j: nat, pos: nat, last: nat, hash: Hash)
    requires WeaklySorted(next) && j <= |next| && last <= pos && (|next| > 0 ==> next[|next| - 1].pos <= g.Up(last)) &&
             pos < g.Up(pos)
    requires forall x :: j <= x < |next| ==> pos <= next[x].pos
    ensures var more := next + [Entry(g.Up(pos), hash)];
            WeaklySorted(more) && (forall x :: j <= x < |more| ==> pos <= more[x].pos) &&
                more[|more| - 1].pos <= g.Up(pos)
  {
    assert g.Up(last) <= g.Up(pos);
  }

  /** The state of the pass for any targets. */
  ghost predicate InRun(g: Layout, n: nat, delHashes: Option<seq<Hash>>, proof: Proof, toProve: seq<Entry>,
                        next: seq<Entry>, i: nat, j: nat, k: nat, last: nat, proofIdx: nat, roots: seq<Hash>) {
    && Calculable(g, n, delHashes, proof) && g.WellShaped()
    && Queues(g, toProve, next, i, j, last) && InNodes(g, Tail(toProve, i)) && InNodes(g, Tail(next, j))
    && Running(g, toProve, next, i, j, proof.proof, proofIdx, roots, Run(g, n, delHashes, proof).value)
    && Following(g, n, delHashes, proof, toProve, next, i, j, k, proofIdx, roots)
  }

  /** What is left to do. */
  ghost function Left(g: Layout, toProve: seq<Entry>, next: seq<Entry>, i: nat, j: nat): nat
    requires i <= |toProve| && j <= |next|
  {
    Weight(g, Tail(toProve, i)) + Weight(g, Tail(next, j))
  }

  lemma {:induction false} RunBegins(g: Layout, n: nat, delHashes: Option<seq<Hash>>, proof: Proof)
    requires Calculable(g, n, delHashes, proof)
    ensures delHashes.Some? ==> |delHashes.value| == |proof.targets|
    ensures LayoutFor(g, TreeRows(n), n) && InRun(g, n, delHashes, proof, Sorted0(delHashes, proof), [], 0, 0, 0, 0, 0,
                                                  [])
  {
    hide LayoutFor, Queues, Running, Following, Run, Sorted0, Layout.WellShaped, Tail;
    SortedNodes(g, n, delHashes, proof);
    QueuesStart(g, Sorted0(delHashes, proof));
    RunningStart(g, n, delHashes, proof);
    PassMaybeBegins(g, n, delHashes, proof, Sorted0(delHashes, proof));
  }

  /** With nothing left in the queues, all is found. */
  lemma {:induction false} RunEnds(g: Layout, n: nat, delHashes: Option<seq<Hash>>, proof: Proof, toProve: seq<Entry>,
                                   next: seq<Entry>, i: nat, j: nat, k: nat, last: nat, proofIdx: nat, roots: seq<Hash>)
    requires InRun(g, n, delHashes, proof, toProve, next, i, j, k, last, proofIdx, roots)
    requires GetNextPos(PositionsOf(toProve), PositionsOf(next), i, j).idx == -1
    ensures Run(g, n, delHashes, proof) == Some(roots)
    ensures WellFormed(g, n, delHashes, proof) ==>
              var t, given := TargetMap(delHashes, proof), GivenMap(g, proof);
              && roots == CalcAll(g, t, given, PlanFor(g, t.Keys).roots) && Sorted(next) && Sorted(toProve)
              && forall e :: e in next || (e in toProve && e.pos !in PositionsOf(next)) <==>
                             Touched(g, t.Keys, e.pos) && e.hash == Calc(g, t, given, e.pos)
  {
    hide LayoutFor, Running, Following, Run, Layout.WellShaped, Tail, GetNextPos, TargetMap, PlanFor, Calc, Touched,
         ValidTargets, WeaklySorted;
    TakeTails(toProve, next, i, j, GetNextPos(PositionsOf(toProve), PositionsOf(next), i, j));
    RunningDone(g, toProve, next, i, j, proof.proof, proofIdx, roots, Run(g, n, delHashes, proof).value);
    MaybeFinished(g, n, delHashes, proof, toProve, next, i, j, k, proofIdx, roots);
  }

  /** One step of the pass. */
  lemma {:induction false} RunGoesOn(g: Layout, n: nat, delHashes: Option<seq<Hash>>, proof: Proof, toProve: seq<Entry>,
                                     next: seq<Entry>, i: nat, j: nat, k: nat, last: nat, proofIdx: nat,
                                     roots: seq<Hash>, nx: Next)
    requires InRun(g, n, delHashes, proof, toProve, next, i, j, k, last, proofIdx, roots) && i <= |toProve| &&
             j <= |next|
    requires nx == GetNextPos(PositionsOf(toProve), PositionsOf(next), i, j) && nx.idx != -1
    ensures nx.pos in g.nodes && last <= nx.pos && (nx.idx == 0 ==> i < |toProve|) && (nx.idx == 1 ==> j < |next|)
    ensures var i1, j1, hash := Advance(nx, 0, i), Advance(nx, 1, j),
            if nx.idx == 0 then toProve[i].hash else next[j].hash;
            && i1 <= |toProve| && j1 <= |next|
            && if g.IsRoot(nx.pos) then
                 && nx.sibIdx == -1 && InRun(g, n, delHashes, proof, toProve, next, i1, j1, nx.pos / 2 + 1, nx.pos,
                                             proofIdx, roots + [hash])
                 && Left(g, toProve, next, i1, j1) < Left(g, toProve, next, i, j)
               else
                 && (nx.sibIdx == 0 ==> 0 < i1 && i1 - 1 == (if nx.idx == 0 then i + 1 else i))
                 && (nx.sibIdx == 1 ==> 0 < j1 && j1 - 1 == (if nx.idx == 1 then j + 1 else j))
                 && (nx.sibIdx == -1 ==> proofIdx < |proof.proof|)
                 && var sib := if nx.sibIdx == 0 then toProve[i1 - 1].hash
                    else if nx.sibIdx == 1 then next[j1 - 1].hash else proof.proof[proofIdx];
                 && var next' := next + [Entry(g.Up(nx.pos), NextHash(nx.pos, hash, sib))];
                 && InRun(g, n, delHashes, proof, toProve, next', i1, j1, nx.pos / 2 + 1, nx.pos,
                          if nx.sibIdx == -1 then proofIdx + 1 else proofIdx, roots)
                 && Left(g, toProve, next', i1, j1) < Left(g, toProve, next, i, j)
  {
    hide LayoutFor, Running, Following, Run, Layout.WellShaped, Tail, GetNextPos, NextHash, Weight, Layout.IsRoot,
         WeaklySorted, Queues, Pass;
    RunningStep(g, toProve, next, i, j, last, proof.proof, proofIdx, roots, Run(g, n, delHashes, proof).value, nx);
    MaybeStep(g, n, delHashes, proof, toProve, next, i, j, k, proofIdx, roots, nx);
  }

  /** The hashes of the roots above the targets, lowest first, and of every node on
      the way, in one pass from the targets up. */
  method CalculateHashes(n: nat, delHashes: Option<seq<Hash>>, proof: Proof, ghost g: Layout)
    returns (nodes: seq<Entry>, roots: seq<Hash>)
    requires Calculable(g, n, delHashes, proof)
    ensures Run(g, n, delHashes, proof) == Some(roots)
    ensures WellFormed(g, n, delHashes, proof) ==>
              var t, given := TargetMap(delHashes, proof), GivenMap(g, proof);
              && roots == CalcAll(g, t, given, PlanFor(g, t.Keys).roots)
              && Sorted(nodes)
              && forall e :: e in nodes <==> Touched(g, t.Keys, e.pos) && e.hash == Calc(g, t, given, e.pos)
  {
    hide PlanUpTo, PlanFor, Touched, LayoutFor, ValidTargets, InForest, IsRoot, InRun, Left, Run, Sorted, Merged;
    hide GetNextPos, MapOf, Calc, SortEntries, NextHash, IsRootPositionOnRow, Layout.WellShaped, Layout.IsRoot,
         TargetMap, GivenMap;
    var next: seq<Entry> := [];
    RunBegins(g, n, delHashes, proof);
    TargetHashesCount(delHashes, proof);
    var toProve := SortEntries(Zip(proof.targets, TargetHashes(delHashes, proof)));
    roots := [];
    LayoutFits(g, TreeRows(n), n);
    var i: nat, j: nat, row: nat, proofIdx: nat := 0, 0, 0, 0;
    ghost var k: nat, last: nat := 0, 0;
    while row <= TreeRows(n)
      invariant i <= |toProve| && j <= |next| && InRun(g, n, delHashes, proof, toProve, next, i, j, k, last, proofIdx,
                                                       roots)
      invariant row <= TreeRows(n) && RowReached(TreeRows(n), row, last, last)
      decreases Left(g, toProve, next, i, j)
    {
      var nx := GetNextPos(PositionsOf(toProve), PositionsOf(next), i, j);
      if nx.idx == -1 {
        RunEnds(g, n, delHashes, proof, toProve, next, i, j, k, last, proofIdx, roots);
        break;
      }
      RunGoesOn(g, n, delHashes, proof, toProve, next, i, j, k, last, proofIdx, roots, nx);
      var pos := nx.pos;
      var hash;
      if nx.idx == 0 {
        hash := toProve[i].hash;
        i := i + 1;
      } else {
        hash := next[j].hash;
        j := j + 1;
      }
      LayoutAt(g, TreeRows(n), n, pos);
      row := SeekRow(pos, n, row, last, last);
      k, last := pos / 2 + 1, pos;
      if IsRootPositionOnRow(pos, n, row) {
        roots := roots + [hash];
        continue;
      }
      var sibHash;
      if nx.sibIdx == 0 {
        sibHash := toProve[i].hash;
        i := i + 1;
      } else if nx.sibIdx == 1 {
        sibHash := next[j].hash;
        j := j + 1;
      } else {
        sibHash := proof.proof[proofIdx];
        proofIdx := proofIdx + 1;
      }
      next := next + [Entry(Parent(TreeRows(n), pos), NextHash(pos, hash, sibHash))];
    }
    nodes := MergeSorted(next, toProve);
  }

  /** The roots found so far, and those the rest of the pass finds, are all. */
  ghost predicate Running(g: Layout, toProve: seq<Entry>, next: seq<Entry>, i: nat, j: nat, proof: seq<Hash>,
                          proofIdx: nat, roots: seq<Hash>, all: seq<Hash>)
    requires g.WellShaped() && i <= |toProve| && j <= |next| && InNodes(g, Tail(toProve, i)) &&
             InNodes(g, Tail(next, j))
  {
    && proofIdx <= |proof|
    && var rest := Pass(g, Tail(toProve, i), Tail(next, j), proof[proofIdx..], NextHash);
       rest.Some? && roots + rest.value == all
  }

  lemma {:induction false} QueuesStart(g: Layout, toProve: seq<Entry>)
    requires WeaklySorted(toProve) && InNodes(g, ItemsOf(toProve))
    ensures Queues(g, toProve, [], 0, 0, 0) && Tail(toProve, 0) == ItemsOf(toProve) && Tail([], 0) == []
  {
    assert toProve[0..] == toProve;
    forall x | 0 <= x < |toProve|
      ensures toProve[x].pos in g.nodes
    {
      assert ItemsOf(toProve)[x].pos in g.nodes;
    }
  }

  lemma {:induction false} RunningStart(g: Layout, n: nat, delHashes: Option<seq<Hash>>, proof: Proof)
    requires Calculable(g, n, delHashes, proof)
    ensures g.WellShaped() && InNodes(g, Tail(Sorted0(delHashes, proof), 0)) && InNodes(g, Tail([], 0))
    ensures Running(g, Sorted0(delHashes, proof), [], 0, 0, proof.proof, 0, [], Run(g, n, delHashes, proof).value)
  {
    hide Pass, Sorted0, Layout.WellShaped, LayoutFor;
    SortedNodes(g, n, delHashes, proof);
    QueuesStart(g, Sorted0(delHashes, proof));
    assert proof.proof[0..] == proof.proof;
  }

  lemma {:induction false} RunningDone(g: Layout, toProve: seq<Entry>, next: seq<Entry>, i: nat, j: nat,
                                       proof: seq<Hash>, proofIdx: nat, roots: seq<Hash>, all: seq<Hash>)
    requires g.WellShaped() && i <= |toProve| && j <= |next| && InNodes(g, Tail(toProve, i)) &&
             InNodes(g, Tail(next, j))
    requires Running(g, toProve, next, i, j, proof, proofIdx, roots, all) && |Tail(toProve, i)| + |Tail(next, j)| == 0
    ensures roots == all
  {
    hide Pass, Tail, Layout.WellShaped;
    RunEnd(g, Tail(toProve, i), Tail(next, j), proof[proofIdx..], NextHash);
  }

  /** One step of the pass for any targets: what it fetches is there, and what it leaves. */
  lemma {:induction false} RunningStep(g: Layout, toProve: seq<Entry>, next: seq<Entry>, i: nat, j: nat, last: nat,
                                       proof: seq<Hash>, proofIdx: nat, roots: seq<Hash>, all: seq<Hash>, nx: Next)
    requires g.WellShaped() && i <= |toProve| && j <= |next| && InNodes(g, Tail(toProve, i)) &&
             InNodes(g, Tail(next, j))
    requires Queues(g, toProve, next, i, j, last) && Running(g, toProve, next, i, j, proof, proofIdx, roots, all)
    requires nx == GetNextPos(PositionsOf(toProve), PositionsOf(next), i, j) && nx.idx != -1
    ensures nx.pos in g.nodes && last <= nx.pos
    ensures var i1, j1 := Advance(nx, 0, i), Advance(nx, 1, j);
            && (nx.idx == 0 ==> i < |toProve|) && (nx.idx == 1 ==> j < |next|)
            && var hash := if nx.idx == 0 then toProve[i].hash else next[j].hash;
            && i1 <= |toProve| && j1 <= |next|
            && if g.IsRoot(nx.pos) then
                 && nx.sibIdx == -1 && Queues(g, toProve, next, i1, j1, nx.pos)
                 && InNodes(g, Tail(toProve, i1)) && InNodes(g, Tail(next, j1))
                 && Weight(g, Tail(toProve, i1)) + Weight(g, Tail(next, j1)) <
                    Weight(g, Tail(toProve, i)) + Weight(g, Tail(next, j))
                 && Running(g, toProve, next, i1, j1, proof, proofIdx, roots + [hash], all)
               else
                 && (nx.sibIdx == 0 ==> 0 < i1 && i1 - 1 == (if nx.idx == 0 then i + 1 else i))
                 && (nx.sibIdx == 1 ==> 0 < j1 && j1 - 1 == (if nx.idx == 1 then j + 1 else j))
                 && (nx.sibIdx == -1 ==> proofIdx < |proof|)
                 && var sib := if nx.sibIdx == 0 then toProve[i1 - 1].hash
                    else if nx.sibIdx == 1 then next[j1 - 1].hash else proof[proofIdx];
                 && var next' := next + [Entry(g.Up(nx.pos), NextHash(nx.pos, hash, sib))];
                 && Queues(g, toProve, next', i1, j1, nx.pos) && InNodes(g, Tail(toProve, i1)) &&
                    InNodes(g, Tail(next', j1))
                 && Weight(g, Tail(toProve, i1)) + Weight(g, Tail(next', j1)) <
                    Weight(g, Tail(toProve, i)) + Weight(g, Tail(next, j))
                 && Running(g, toProve, next', i1, j1, proof, if nx.sibIdx == -1 then proofIdx + 1 else proofIdx,
                            roots, all)
  {
    hide Pass, Layout.WellShaped, Take, Weight, Layout.IsRoot, NextHash, Queues, GetNextPos, Tail;
    var a, b, rest := Tail(toProve, i), Tail(next, j), proof[proofIdx..];
    TakeTails(toProve, next, i, j, nx);
    RunStep(g, a, b, rest, NextHash);
    var i1, j1 := Advance(nx, 0, i), Advance(nx, 1, j);
    var t := Take(a, b);
    var hash := t.first.value;
    if g.IsRoot(nx.pos) {
      QueueStep(g, toProve, next, i, j, last, nx, hash);
      var after := Pass(g, t.a, t.b, rest, NextHash);
      assert roots + ([hash] + after.value) == (roots + [hash]) + after.value;
    } else {
      var sib := if nx.sibIdx == 0 then toProve[i1 - 1].hash else if nx.sibIdx == 1 then next[j1 - 1].hash
          else proof[proofIdx];
      var e := Entry(g.Up(nx.pos), NextHash(nx.pos, hash, sib));
      QueueStep(g, toProve, next, i, j, last, nx, e.hash);
      TailMore(next, j1, e);
      assert nx.sibIdx == -1 ==> rest[1..] == proof[proofIdx + 1..];
    }
  }

  lemma TailMore(s: seq<Entry>, i: nat, e: Entry)
    requires i <= |s|
    ensures Tail(s + [e], i) == Tail(s, i) + [Item(e.pos, e.hash)]
  {
    assert (s + [e])[i..] == s[i..] + [e];
  }

  lemma {:induction false} PassMaybeBegins(g: Layout, n: nat, delHashes: Option<seq<Hash>>, proof: Proof,
                                           toProve: seq<Entry>)
    requires Calculable(g, n, delHashes, proof) && toProve == Sorted0(delHashes, proof)
    ensures Following(g, n, delHashes, proof, toProve, [], 0, 0, 0, 0, [])
  {
    hide InPass, MapOf, Run, SortEntries, PlanFor, ValidTargets, LayoutFor;
    if WellFormed(g, n, delHashes, proof) { PassBegins(g, n, delHashes, proof, toProve); }
  }

  /** When the targets differ and none is above another, the pass follows the plan. */
  ghost predicate Following(g: Layout, n: nat, delHashes: Option<seq<Hash>>, proof: Proof, toProve: seq<Entry>,
                            next: seq<Entry>, i: nat, j: nat, k: nat, proofIdx: nat, roots: seq<Hash>)
    requires delHashes.Some? ==> |delHashes.value| == |proof.targets|
  {
    WellFormed(g, n, delHashes, proof) ==>
      InPass(g, TargetMap(delHashes, proof), GivenMap(g, proof), toProve, next, i, j, k, proofIdx, roots)
  }

  lemma {:induction false} MaybeStep(g: Layout, n: nat, delHashes: Option<seq<Hash>>, proof: Proof, toProve: seq<Entry>,
                                     next: seq<Entry>, i: nat, j: nat, k: nat, proofIdx: nat, roots: seq<Hash>,
                                     nx: Next)
    requires delHashes.Some? ==> |delHashes.value| == |proof.targets|
    requires Following(g, n, delHashes, proof, toProve, next, i, j, k, proofIdx, roots)
    requires nx == GetNextPos(PositionsOf(toProve), PositionsOf(next), i, j) && nx.idx != -1
    requires (nx.idx == 0 ==> i < |toProve|) && (nx.idx == 1 ==> j < |next|)
    requires var i1, j1 := Advance(nx, 0, i), Advance(nx, 1, j);
             (nx.sibIdx == 0 ==> 0 < i1 <= |toProve|) && (nx.sibIdx == 1 ==> 0 < j1 <= |next|)
    requires nx.sibIdx == -1 && !g.IsRoot(nx.pos) ==> proofIdx < |proof.proof|
    ensures var hash, i1, j1, k1 := if nx.idx == 0 then toProve[i].hash else next[j].hash, Advance(nx, 0, i),
            Advance(nx, 1, j), nx.pos / 2 + 1;
            if g.IsRoot(nx.pos) then nx.sibIdx == -1 ==>
               Following(g, n, delHashes, proof, toProve, next, i1, j1, k1, proofIdx, roots + [hash])
            else
              var sib := if nx.sibIdx == 0 then toProve[i1 - 1].hash else if nx.sibIdx == 1 then next[j1 - 1].hash
                  else proof.proof[proofIdx];
              Following(g, n, delHashes, proof, toProve, next + [Entry(g.Up(nx.pos), NextHash(nx.pos, hash, sib))], i1,
                        j1, k1,
                        if nx.sibIdx == -1 then proofIdx + 1 else proofIdx, roots)
  {
    hide PlanUpTo, PlanFor, Touched, LayoutFor, ValidTargets, InPass, GetNextPos, MapOf, Calc, NextHash,
         Layout.WellShaped, Layout.IsRoot, NoDuplicates;
    if WellFormed(g, n, delHashes, proof) {
      TargetKeys(g, n, delHashes, proof);
      HashStep(g, TargetMap(delHashes, proof), proof.proof, toProve, next, i, j, k, proofIdx, roots, nx);
    }
  }

  lemma {:induction false} TargetKeys(g: Layout, n: nat, delHashes: Option<seq<Hash>>, proof: Proof)
    requires WellFormed(g, n, delHashes, proof)
    ensures TargetMap(delHashes, proof).Keys == Elems(proof.targets)
  {
    hide ValidTargets, PlanFor, LayoutFor, MapOf, SortEntries, TargetHashes, Sorted0;
    TargetHashesCount(delHashes, proof);
    SortedTargets(g, n, delHashes, proof, SortEntries(Zip(proof.targets, TargetHashes(delHashes, proof))));
  }

  lemma {:induction false} MaybeFinished(g: Layout, n: nat, delHashes: Option<seq<Hash>>, proof: Proof,
                                         toProve: seq<Entry>, next: seq<Entry>, i: nat, j: nat, k: nat, proofIdx: nat,
                                         roots: seq<Hash>)
    requires delHashes.Some? ==> |delHashes.value| == |proof.targets|
    requires Following(g, n, delHashes, proof, toProve, next, i, j, k, proofIdx, roots)
    requires GetNextPos(PositionsOf(toProve), PositionsOf(next), i, j).idx == -1
    ensures WellFormed(g, n, delHashes, proof) ==>
              var t, given := TargetMap(delHashes, proof), GivenMap(g, proof);
              && roots == CalcAll(g, t, given, PlanFor(g, t.Keys).roots) && Sorted(next) && Sorted(toProve)
              && forall e :: e in next || (e in toProve && e.pos !in PositionsOf(next)) <==>
                             Touched(g, t.Keys, e.pos) && e.hash == Calc(g, t, given, e.pos)
  {
    hide PlanUpTo, Touched, LayoutFor, ValidTargets, GetNextPos, MapOf, Calc, AtPair;
    if WellFormed(g, n, delHashes, proof) {
      Finished(g, TargetMap(delHashes, proof), GivenMap(g, proof), toProve, next, i, j, k, proofIdx, roots);
    }
  }

  lemma {:induction false} PassBegins(g: Layout, n: nat, delHashes: Option<seq<Hash>>, proof: Proof,
                                      toProve: seq<Entry>)
    requires WellFormed(g, n, delHashes, proof)
    requires toProve == SortEntries(Zip(proof.targets, TargetHashes(delHashes, proof)))
    ensures LayoutFor(g, TreeRows(n), n)
    ensures Sorted(toProve) && TargetMap(delHashes, proof).Keys == Elems(proof.targets)
    ensures InPass(g, TargetMap(delHashes, proof), GivenMap(g, proof), toProve, [], 0, 0, 0, 0, [])
  {
    hide PlanUpTo, PlanFor, AtPair, LayoutFor, ValidTargets, MapOf, Calc, SortEntries;
    SortedTargets(g, n, delHashes, proof, toProve);
    PassStart(g, TreeRows(n), n, PositionsOf(toProve));
    HashedTargets(g, TargetMap(delHashes, proof), GivenMap(g, proof), toProve);
  }

  lemma {:induction false} HashedTargets(g: Layout, t: map<nat, Hash>, given: map<nat, Hash>, toProve: seq<Entry>)
    requires forall e :: e in toProve <==> e.pos in t && e.hash == t[e.pos]
    ensures Hashed(g, t, given, toProve)
  {
    forall i | 0 <= i < |toProve|
      ensures toProve[i].hash == Calc(g, t, given, toProve[i].pos)
    {
      assert toProve[i] in toProve;
    }
  }

  /** With nothing pending, the queue of parents and the targets are all the touched nodes. */
  lemma {:induction false} Finished(g: Layout, t: map<nat, Hash>, given: map<nat, Hash>, toProve: seq<Entry>,
                                    next: seq<Entry>, i: nat, j: nat, k: nat, proofIdx: nat, roots: seq<Hash>)
    requires InPass(g, t, given, toProve, next, i, j, k, proofIdx, roots)
    requires GetNextPos(PositionsOf(toProve), PositionsOf(next), i, j).idx == -1
    ensures roots == CalcAll(g, t, given, PlanFor(g, t.Keys).roots)
    ensures Sorted(next)
    ensures forall e :: e in next || (e in toProve && e.pos !in PositionsOf(next)) <==>
                        Touched(g, t.Keys, e.pos) && e.hash == Calc(g, t, given, e.pos)
  {
    hide GetNextPos, PlanUpTo, Calc;
    var ps := PositionsOf(next);
    PassDone(g, PositionsOf(toProve), ps, i, j, k);
    PlanMeaning(g, t.Keys, g.m);
    PlanAscending(g, t.Keys, g.m);
    forall e
      ensures e in next || (e in toProve && e.pos !in ps) <==>
              Touched(g, t.Keys, e.pos) && e.hash == Calc(g, t, given, e.pos)
    {
      EntryOf(next, e);
      EntryOf(toProve, e);
      assert e.pos in t.Keys <==> e.pos in PositionsOf(toProve);
      assert e.pos in ps <==> TouchedBelow(g, t.Keys, e.pos);
    }
  }

  /** An entry is in a list exactly when its position is there with its hash. */
  lemma EntryOf(s: seq<Entry>, e: Entry)
    ensures e in s ==> e.pos in PositionsOf(s)
    ensures e.pos in PositionsOf(s) ==> exists i :: 0 <= i < |s| && s[i].pos == e.pos
  {
    if e in s {
      var i :| 0 <= i < |s| && s[i] == e;
      assert PositionsOf(s)[i] == e.pos;
    }
    if e.pos in PositionsOf(s) {
      var i :| 0 <= i < |s| && PositionsOf(s)[i] == e.pos;
      assert s[i].pos == e.pos;
    }
  }

  /** From a state that follows the plan, the rest of the pass finds the rest of the roots, and the proof hashes
      suffice. */
  lemma {:induction false} PlannedRun(g: Layout, t: map<nat, Hash>, proof: seq<Hash>, toProve: seq<Entry>,
                                      next: seq<Entry>, i: nat, j: nat, k: nat, proofIdx: nat, roots: seq<Hash>)
    requires g.WellShaped() && |proof| >= |PlanFor(g, t.Keys).proof| && i <= |toProve| && j <= |next|
    requires InPass(g, t, MapOf(Zip(PlanFor(g, t.Keys).proof, proof)), toProve, next, i, j, k, proofIdx, roots)
    requires InNodes(g, Tail(toProve, i)) && InNodes(g, Tail(next, j))
    ensures proofIdx <= |proof|
    ensures var rest := Pass(g, Tail(toProve, i), Tail(next, j), proof[proofIdx..], NextHash);
            rest.Some? && roots + rest.value == CalcAll(g, t, MapOf(Zip(PlanFor(g, t.Keys).proof, proof)),
                                                        PlanFor(g, t.Keys).roots)
    decreases g.m - k
  {
    hide PlanUpTo, PlanFor, Touched, GetNextPos, MapOf, Calc, NextHash, Layout.WellShaped, InPass, Tail, Pass, Take,
         Weight, Layout.IsRoot, CalcAll;
    IndexBound(g, t, proof, toProve, next, i, j, k, proofIdx, roots);
    var given := MapOf(Zip(PlanFor(g, t.Keys).proof, proof));
    var nx := GetNextPos(PositionsOf(toProve), PositionsOf(next), i, j);
    var a, b, rest := Tail(toProve, i), Tail(next, j), proof[proofIdx..];
    TakeTails(toProve, next, i, j, nx);
    if nx.idx == -1 {
      FinishedRoots(g, t, given, toProve, next, i, j, k, proofIdx, roots);
      RunEnd(g, a, b, rest, NextHash);
    } else {
      HashStep(g, t, proof, toProve, next, i, j, k, proofIdx, roots, nx);
      RunStep(g, a, b, rest, NextHash);
      var i1, j1, u := Advance(nx, 0, i), Advance(nx, 1, j), Take(a, b);
      var hash := u.first.value;
      if g.IsRoot(nx.pos) {
        PlannedRun(g, t, proof, toProve, next, i1, j1, nx.pos / 2 + 1, proofIdx, roots + [hash]);
        var after := Pass(g, u.a, u.b, rest, NextHash);
        assert roots + ([hash] + after.value) == (roots + [hash]) + after.value;
      } else {
        var sib := if nx.sibIdx == -1 then proof[proofIdx] else u.sibling.value.value;
        var e := Entry(g.Up(nx.pos), NextHash(nx.pos, hash, sib));
        TailMore(next, j1, e);
        PlannedRun(g, t, proof, toProve, next + [e], i1, j1, nx.pos / 2 + 1,
                   if nx.sibIdx == -1 then proofIdx + 1 else proofIdx, roots);
        assert nx.sibIdx == -1 ==> rest[1..] == proof[proofIdx + 1..];
      }
    }
  }

  lemma {:induction false} IndexBound(g: Layout, t: map<nat, Hash>, proof: seq<Hash>, toProve: seq<Entry>,
                                      next: seq<Entry>, i: nat, j: nat, k: nat, proofIdx: nat, roots: seq<Hash>)
    requires |proof| >= |PlanFor(g, t.Keys).proof|
    requires InPass(g, t, MapOf(Zip(PlanFor(g, t.Keys).proof, proof)), toProve, next, i, j, k, proofIdx, roots)
    ensures proofIdx <= |proof|
  {
    hide PlanUpTo, Calc, MapOf, ValidTargets;
    PlanPrefix(g, t.Keys, k, g.m);
  }

  lemma {:induction false} FinishedRoots(g: Layout, t: map<nat, Hash>, given: map<nat, Hash>, toProve: seq<Entry>,
                                         next: seq<Entry>, i: nat, j: nat, k: nat, proofIdx: nat, roots: seq<Hash>)
    requires InPass(g, t, given, toProve, next, i, j, k, proofIdx, roots)
    requires GetNextPos(PositionsOf(toProve), PositionsOf(next), i, j).idx == -1
    ensures roots + [] == CalcAll(g, t, given, PlanFor(g, t.Keys).roots)
  {
    hide PlanUpTo, PlanFor, Calc, InPass, GetNextPos, Touched, CalcAll;
    Finished(g, t, given, toProve, next, i, j, k, proofIdx, roots);
  }

  /** Targets that differ, none above another, can be calculated with, and lead to the hashes the recursion defines. */
  lemma {:induction false} PlannedCalculable(g: Layout, n: nat, delHashes: Option<seq<Hash>>, proof: Proof)
    requires WellFormed(g, n, delHashes, proof)
    ensures Calculable(g, n, delHashes, proof)
    ensures var t, given := TargetMap(delHashes, proof), GivenMap(g, proof);
            Run(g, n, delHashes, proof) == Some(CalcAll(g, t, given, PlanFor(g, t.Keys).roots))
  {
    hide PlanUpTo, PlanFor, Touched, MapOf, Calc, NextHash, Layout.WellShaped, InPass, Tail, Pass, Weight,
         Layout.IsRoot, CalcAll, LayoutFor, SortEntries, NoDuplicates;
    TargetNodes(g, proof);
    SortedNodes(g, n, delHashes, proof);
    var toProve := Sorted0(delHashes, proof);
    QueuesStart(g, toProve);
    PassBegins(g, n, delHashes, proof, toProve);
    assert proof.proof[0..] == proof.proof;
    var t := TargetMap(delHashes, proof);
    assert t.Keys == Elems(proof.targets);
    PlannedRun(g, t, proof.proof, toProve, [], 0, 0, 0, 0, []);
    var all := Pass(g, Tail(toProve, 0), Tail([], 0), proof.proof, NextHash);
    assert [] + all.value == all.value;
  }

  lemma TargetNodes(g: Layout, proof: Proof)
    requires ValidTargets(g, Elems(proof.targets))
    ensures forall i :: 0 <= i < |proof.targets| ==> proof.targets[i] in g.nodes
  {
    forall i | 0 <= i < |proof.targets|
      ensures proof.targets[i] in g.nodes
    {
      assert proof.targets[i] in Elems(proof.targets);
    }
  }
}
