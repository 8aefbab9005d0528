/** Replacing deleted twins by their parent. */
module DeTwin {
  import opened Positions
  import opened Layouts
  import opened Shape
  import opened Entries
  import opened Deletion
  import opened Sequential

  /** The first index from `i` on whose element is greater than `el`. */
  function FirstGreater(s: seq<nat>, el: nat, i: nat): (k: nat)
    requires i <= |s|
    ensures i <= k <= |s|
    ensures forall j :: i <= j < k ==> s[j] <= el
    ensures k < |s| ==> s[k] > el
    decreases |s| - i
  {
    if i == |s| || s[i] > el then i else FirstGreater(s, el, i + 1)
  }

  method InsertInOrder(dels: seq<nat>, el: nat) returns (r: seq<nat>)
    requires Ascending(dels) && el !in dels
    ensures Ascending(r)
    ensures forall x :: x in r <==> x in dels || x == el
    ensures var k := FirstGreater(dels, el, 0); r == dels[..k] + [el] + dels[k..]
  {
    var k := FirstGreater(dels, el, 0);
    r := dels[..k] + [el] + dels[k..];
    SpliceMembers(dels, k, el);
    SpliceAscending(dels, k, el);
  }

  lemma SpliceMembers(s: seq<nat>, k: nat, el: nat)
    requires k <= |s|
    ensures forall x :: x in s[..k] + [el] + s[k..] <==> x in s || x == el
  {
    assert s == s[..k] + s[k..];
  }

  lemma SpliceAscending(s: seq<nat>, k: nat, el: nat)
    requires Ascending(s) && k <= |s| && el !in s
    requires forall j :: 0 <= j < k ==> s[j] <= el
    requires k < |s| ==> s[k] > el
    ensures Ascending(s[..k] + [el] + s[k..])
  {
    var a, b := s[..k], s[k..];
    assert forall j :: 0 <= j < k ==> a[j] == s[j] && s[j] in s;
    assert forall j :: 0 <= j < |b| ==> b[j] == s[k + j];
    forall j | 0 <= j < |b|
      ensures el < b[j]
    {
      assert s[k] <= s[k + j];
    }
    AscendingJoin(a, el, b);
  }

  lemma AscendingJoin(a: seq<nat>, el: nat, b: seq<nat>)
    requires Ascending(a) && Ascending(b)
    requires (forall i :: 0 <= i < |a| ==> a[i] < el) && forall j :: 0 <= j < |b| ==> el < b[j]
    ensures Ascending(a + [el] + b)
  {
  }

  /** The largest positions at which everything is deleted. */
  ghost predicate Maximal(g: Layout, d: set<nat>, p: nat) {
    Gone(g, d, p) && (g.IsRoot(p) || !Gone(g, d, g.Up(p)))
  }

  /** `l` stands for the deletions `d`: together its positions cover exactly them. */
  ghost predicate StandsFor(g: Layout, d: set<nat>, l: seq<nat>) {
    g.WellShaped() && Ascending(l) &&
    (forall e :: e in l ==> Gone(g, d, e)) &&
    (forall x :: x in d ==> exists e :: e in l && AtOrAbove(g, e, x)) &&
    (forall e, e' :: e in l && e' in l ==> !Above(g, e, e'))
  }

  ghost predicate NoTwins(l: seq<nat>, i: nat) {
    forall j :: 0 <= j < i && j + 1 < |l| ==> RightSib(l[j]) != l[j + 1]
  }

  /** What is deleted is covered by a list that has no twins. */
  lemma {:induction false} GoneCovered(g: Layout, d: set<nat>, l: seq<nat>, p: nat)
    requires StandsFor(g, d, l) && (forall e :: e in l ==> Sibling(e) !in l)
    requires Gone(g, d, p)
    ensures exists e :: e in l && AtOrAbove(g, e, p)
    decreases p
  {
    if p !in d {
      g.ChildFacts(p);
      var a, b := g.Left(p), g.Right(p);
      GoneCovered(g, d, l, a);
      GoneCovered(g, d, l, b);
      var e :| e in l && AtOrAbove(g, e, a);
      var e' :| e' in l && AtOrAbove(g, e', b);
      if e != a {
        AboveParent(g, e, a);
      } else if e' != b {
        AboveParent(g, e', b);
      }
    }
  }

  /** Between a deleted position and one above it everything is deleted. */
  lemma {:induction false} GoneBetween(g: Layout, d: set<nat>, e: nat, p: nat)
    requires ValidTargets(g, d) && Gone(g, d, e) && Gone(g, d, p) && Above(g, e, p)
    ensures Gone(g, d, g.Up(p))
    decreases e
  {
    AboveBounds(g, e, p);
    if e in d {
      GoneTouched(g, d, p);
      TouchedAbove(g, d, e, p);
    } else if g.Up(p) != e {
      BelowChild(g, e, p);
      g.ChildFacts(e);
      var c := if AtOrAbove(g, g.Left(e), p) then g.Left(e) else g.Right(e);
      assert c != p;
      GoneBetween(g, d, c, p);
    }
  }

  lemma {:induction false} GoneTouched(g: Layout, d: set<nat>, p: nat)
    requires Gone(g, d, p)
    ensures Touched(g, d, p)
    decreases p
  {
    if p !in d {
      GoneTouched(g, d, g.Left(p));
    }
  }

  lemma {:induction false} TouchedAbove(g: Layout, d: set<nat>, e: nat, p: nat)
    requires g.WellShaped() && e in g.nodes && Touched(g, d, p) && Above(g, e, p)
    ensures TouchedBelow(g, d, e)
    decreases e
  {
    AboveBounds(g, e, p);
    BelowChild(g, e, p);
    g.ChildFacts(e);
    var c := if AtOrAbove(g, g.Left(e), p) then g.Left(e) else g.Right(e);
    if c != p {
      TouchedAbove(g, d, c, p);
    }
  }

  /** A list without twins that stands for some deletions is the list of the largest
      positions at which everything is deleted. */
  lemma {:induction false} Canonical(g: Layout, d: set<nat>, l: seq<nat>)
    requires ValidTargets(g, d) && StandsFor(g, d, l) && NoTwins(l, |l|)
    ensures forall p: nat :: p in l <==> Maximal(g, d, p)
    ensures Separate(g, l)
  {
    hide Gone, Above, Layout.WellShaped;
    assert forall e :: e in l ==> Sibling(e) !in l by { TwinFree(l); }
    forall p: nat
      ensures p in l <==> Maximal(g, d, p)
    {
      if p in l && !g.IsRoot(p) && Gone(g, d, g.Up(p)) {
        GoneCovered(g, d, l, g.Up(p));
        var e :| e in l && AtOrAbove(g, e, g.Up(p));
        GoneNode(g, d, p);
        AboveTrans(g, e, p);
      }
      if Maximal(g, d, p) {
        GoneCovered(g, d, l, p);
        var e :| e in l && AtOrAbove(g, e, p);
        if e != p {
          GoneNode(g, d, e);
          GoneBetween(g, d, e, p);
          RootBelow(g, e, p);
        }
      }
    }
    forall i | 0 <= i < |l|
      ensures l[i] in g.nodes && Sibling(l[i]) !in l
    {
      GoneNode(g, d, l[i]);
    }
  }

  lemma GoneNode(g: Layout, d: set<nat>, p: nat)
    ensures Gone(g, d, p) ==> p in g.nodes && p < 2 * g.m - 1
  {
  }

  lemma {:induction false} TwinFree(l: seq<nat>)
    requires Ascending(l) && NoTwins(l, |l|)
    ensures forall e :: e in l ==> Sibling(e) !in l
  {
    forall i, j | 0 <= i < |l| && 0 <= j < |l|
      ensures l[j] != Sibling(l[i])
    {
      if i < j {
        assert l[i] < l[i + 1] <= l[j];
      } else if j < i {
        assert l[j] < l[j + 1] <= l[i];
      }
    }
  }

  /** Twins and their parent stand for the same deletions. */
  lemma {:induction false} MergeTwins(g: Layout, d: set<nat>, l: seq<nat>, a: nat, l': seq<nat>)
    requires StandsFor(g, d, l) && a in l && a % 2 == 0 && a + 1 in l && Ascending(l')
    requires forall x :: x in l' <==> (x in l && x != a && x != a + 1) || x == g.Up(a)
    ensures StandsFor(g, d, l')
  {
    hide Above, Layout.WellShaped;
    var b, p := a + 1, g.Up(a);
    TwinsParent(g, d, l, a);
    forall e, e' | e in l' && e' in l'
      ensures !Above(g, e, e')
    {
      if Above(g, e, e') {
        if e' == p {
          if e != p {
            AboveTrans(g, e, a);
          } else {
            AboveBounds(g, p, p);
          }
        } else if e == p {
          BelowChild(g, p, e');
        }
      }
    }
    forall x | x in d
      ensures exists e :: e in l' && AtOrAbove(g, e, x)
    {
      var e :| e in l && AtOrAbove(g, e, x);
      if e == a || e == b {
        AboveParentOf(g, e, x);
      }
    }
  }

  lemma {:induction false} TwinsParent(g: Layout, d: set<nat>, l: seq<nat>, a: nat)
    requires StandsFor(g, d, l) && a in l && a % 2 == 0 && a + 1 in l
    ensures g.WellShaped() && a in g.nodes && a + 1 in g.nodes && g.Up(a) in g.nodes
    ensures g.Up(a) == g.Up(a + 1) && a < a + 1 < g.Up(a) < 2 * g.m - 1
    ensures g.Left(g.Up(a)) == a && g.Right(g.Up(a)) == a + 1
    ensures Gone(g, d, g.Up(a)) && g.Up(a) !in l
  {
    hide Gone, Above, Layout.WellShaped;
    assert Gone(g, d, a) && Gone(g, d, a + 1);
    assert g.Up(a) in l ==> !Above(g, g.Up(a), a);
    GoneNode(g, d, a);
    GoneNode(g, d, a + 1);
    RightNode(g, a + 1);
    GoneParent(g, d, g.Up(a));
    AboveParentOf(g, a, a);
  }

  lemma RightNode(g: Layout, b: nat)
    requires g.WellShaped() && b in g.nodes && b % 2 == 1
    ensures var p := g.Up(b); p in g.nodes && g.Up(b - 1) == p && b < p < 2 * g.m - 1 &&
                              p >= g.m && g.Left(p) == b - 1 && g.Right(p) == b
  {
    g.NonRootFacts(b);
  }

  lemma GoneParent(g: Layout, d: set<nat>, p: nat)
    requires p in g.nodes && g.m <= p < 2 * g.m - 1 && Gone(g, d, g.Left(p)) && Gone(g, d, g.Right(p))
    ensures Gone(g, d, p)
  {
  }

  lemma {:induction false} AboveParentOf(g: Layout, e: nat, x: nat)
    requires AtOrAbove(g, e, x) && e < 2 * g.m - 1
    ensures Above(g, g.Up(e), x)
    decreases 2 * g.m - x
  {
    if e != x {
      AboveParentOf(g, e, g.Up(x));
      AboveTrans(g, g.Up(e), x);
    }
  }

  /** The deletions, as the list of the largest positions at which everything is
      deleted: no two of them are twins, and none is above another. */
  method DeTwin(sorted: seq<nat>, rows: nat, ghost g: Layout) returns (dels: seq<nat>)
    requires g.m == Pow2(rows) && Ascending(sorted) && ValidTargets(g, Elems(sorted))
    ensures Separate(g, dels)
    ensures forall p: nat :: p in dels <==> Maximal(g, Elems(sorted), p)
  {
    hide Gone, Above, Layout.WellShaped, StandsFor, ValidTargets;
    ghost var d := Elems(sorted);
    dels := sorted;
    var i := 0;
    StandsForSelf(g, sorted);
    while i < |dels|
      invariant 0 <= i <= |dels|
      invariant StandsFor(g, d, dels) && Ascending(dels) && NoTwins(dels, i)
      decreases |dels| - i
    {
      if i + 1 < |dels| && RightSib(dels[i]) == dels[i + 1] {
        var pos := dels[i];
        ghost var l := dels;
        Cut(l, i);
        dels := dels[..i] + dels[i + 2..];
        TwinsParent(g, d, l, pos);
        dels := InsertInOrder(dels, Parent(rows, pos));
        MergeTwins(g, d, l, pos, dels);
        TwinsBefore(l, i, Parent(rows, pos), dels);
      } else {
        i := i + 1;
      }
    }
    Canonical(g, d, dels);
  }

  lemma {:induction false} StandsForSelf(g: Layout, sorted: seq<nat>)
    requires Ascending(sorted) && ValidTargets(g, Elems(sorted))
    ensures StandsFor(g, Elems(sorted), sorted)
  {
    var d := Elems(sorted);
    forall e, e' | e in sorted && e' in sorted
      ensures !Above(g, e, e')
    {
      if Above(g, e, e') {
        TouchedAbove(g, d, e, e');
      }
    }
    assert forall x :: x in d ==> AtOrAbove(g, x, x);
  }

  lemma {:induction false} Cut(l: seq<nat>, i: nat)
    requires Ascending(l) && i + 1 < |l| && RightSib(l[i]) == l[i + 1]
    ensures l[i] % 2 == 0 && l[i + 1] == l[i] + 1 && l[i] in l && l[i] + 1 in l
    ensures var cut := l[..i] + l[i + 2..];
            Ascending(cut) && forall x :: x in cut <==> x in l && x != l[i] && x != l[i] + 1
  {
    var cut := l[..i] + l[i + 2..];
    assert l == l[..i] + [l[i], l[i + 1]] + l[i + 2..];
    assert forall j :: 0 <= j < |cut| ==> cut[j] == if j < i then l[j] else l[j + 2];
  }

  /** Inserting the parent of the twins found makes no twins before them. */
  lemma {:induction false} TwinsBefore(l: seq<nat>, i: nat, p: nat, l': seq<nat>)
    requires Ascending(l) && i + 1 < |l| && NoTwins(l, i) && l[i + 1] < p
    requires var cut := l[..i] + l[i + 2..];
             p !in cut && var k := FirstGreater(cut, p, 0); l' == cut[..k] + [p] + cut[k..]
    ensures i <= |l'| && NoTwins(l', i)
  {
    var cut := l[..i] + l[i + 2..];
    var k := FirstGreater(cut, p, 0);
    assert forall j :: 0 <= j < i ==> cut[j] == l[j] && l[j] < l[i];
    assert k >= i;
    assert forall j :: 0 <= j < i ==> l'[j] == l[j];
    assert i < |l'| ==> l'[i] > l[i + 1];
  }
}
