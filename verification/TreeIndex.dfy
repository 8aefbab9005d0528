/** Which tree of the forest a position is in. */
module TreeIndex {
  import opened Positions
  import opened Geometry
  import opened Layouts
  import opened Sequential
  import opened Navigation

  /** The root above `p`. */
  ghost function RootOf(g: Layout, p: nat): nat
    decreases 2 * g.m - p
  {
    if p !in g.nodes || p >= 2 * g.m - 1 || g.IsRoot(p) then p else RootOf(g, g.Up(p))
  }

  lemma {:induction false} RootOfFacts(g: Layout, p: nat)
    requires g.WellShaped() && p in g.nodes
    ensures g.IsRoot(RootOf(g, p)) && AtOrAbove(g, RootOf(g, p), p)
    decreases 2 * g.m - p
  {
    if !g.IsRoot(p) {
      g.NonRootFacts(p);
      RootOfFacts(g, g.Up(p));
      AboveTrans(g, RootOf(g, p), p);
    }
  }

  /** What is above a node is in the same tree. */
  lemma {:induction false} SameTree(g: Layout, a: nat, p: nat)
    requires g.WellShaped() && a in g.nodes && p in g.nodes && AtOrAbove(g, a, p)
    ensures RootOf(g, p) == RootOf(g, a)
    decreases 2 * g.m - p
  {
    if a != p {
      RootBelow(g, a, p);
      AboveParent(g, a, p);
      g.NonRootFacts(p);
      SameTree(g, a, g.Up(p));
    }
  }

  /** How many trees are bigger than the one on row `t`. */
  function BiggerTrees(n: nat, t: nat, rows: nat): nat
    decreases rows - t
  {
    if t >= rows then 0
    else BiggerTrees(n, t + 1, rows) + if RootExistsOnRow(n, t + 1) then 1 else 0
  }

  lemma {:induction false} BiggerTreesOrder(n: nat, s: nat, t: nat, rows: nat)
    requires s <= t <= rows
    ensures BiggerTrees(n, s, rows) >= BiggerTrees(n, t, rows)
    ensures s < t && RootExistsOnRow(n, t) ==> BiggerTrees(n, s, rows) > BiggerTrees(n, t, rows)
    decreases t - s
  {
    if s < t {
      BiggerTreesOrder(n, s + 1, t, rows);
    }
  }

  lemma DivModUnique(a: int, k: int, q: int, r: int)
    requires k > 0 && a == q * k + r && 0 <= r < k
    ensures a % k == r && a / k == q
  {
    var d := a / k - q;
    assert d * k == r - a % k by {
      assert (a / k) * k == a - a % k;
    }
    assert d >= 1 ==> d * k >= k;
    assert d <= -1 ==> d * k <= -k;
  }

  lemma {:induction false} ModHalf(x: nat, k: nat)
    requires k > 0
    ensures x % (2 * k) == 2 * ((x / 2) % k) + x % 2
  {
    var q, r := (x / 2) / k, (x / 2) % k;
    assert x == q * (2 * k) + (2 * r + x % 2);
    DivModUnique(x, 2 * k, q, 2 * r + x % 2);
  }

  /** A number has its bit `t` set exactly when its last `t + 1` bits are `2^t` or more. */
  lemma {:induction false} BitByMod(x: nat, t: nat)
    ensures x % Pow2(t + 1) >= Pow2(t) <==> Shr(x, t) % 2 == 1
  {
    if t == 0 {
      assert Pow2(1) == 2;
    } else {
      BitByMod(x / 2, t - 1);
      ModHalf(x, Pow2(t));
      ShrHalf(x, t);
    }
  }

  lemma {:induction false} ShrMul(x: nat, r: nat, j: nat)
    ensures Shr(x * Pow2(r), r + j) == Shr(x, j)
  {
    if r > 0 {
      assert x * Pow2(r) == 2 * (x * Pow2(r - 1));
      ShrHalf(x * Pow2(r), r + j);
      ShrMul(x, r - 1, j);
    }
  }

  lemma {:induction false} PowAdd(a: nat, b: nat)
    ensures Pow2(a) * Pow2(b) == Pow2(a + b)
  {
    if a > 0 {
      PowAdd(a - 1, b);
      assert Pow2(a) * Pow2(b) == 2 * (Pow2(a - 1) * Pow2(b));
    }
  }

  /** The offset of a position leads to its root: halved once for each row up to it. */
  lemma {:induction false} RootRow(g: Layout, rows: nat, n: nat, p: nat)
    requires LayoutFor(g, rows, n) && p in g.nodes
    ensures Valid(rows, p) && Valid(rows, RootOf(g, p))
    ensures var t := Row(rows, RootOf(g, p));
            && Row(rows, p) <= t <= rows && Shr(n, t) % 2 == 1
            && Shr(Offset(rows, p), t - Row(rows, p)) == Shr(n, t) - 1
    decreases 2 * g.m - p
  {
    hide Row, Layout.WellShaped, Offset, InForest;
    LayoutAt(g, rows, n, p);
    g.NodeBound(p);
    if g.IsRoot(p) {
      RootIsLeft(rows, n, p);
      RowBounds(rows, p);
    } else {
      g.NonRootFacts(p);
      RowStep(rows, p);
      RootRow(g, rows, n, g.Up(p));
      ShrHalf(Offset(rows, p), Row(rows, RootOf(g, p)) - Row(rows, p));
    }
  }

  /** The first leaf below a position. */
  function FirstLeaf(rows: nat, p: nat): nat
    requires Valid(rows, p)
  {
    Offset(rows, p) * Pow2(Row(rows, p))
  }

  /** Above the row of the root, the bits of the first leaf are those of the number of
      leaves; on that row they differ. */
  lemma {:induction false} LeafBits(g: Layout, rows: nat, n: nat, p: nat, t: nat)
    requires LayoutFor(g, rows, n) && p in g.nodes
    ensures Valid(rows, p) && Valid(rows, RootOf(g, p)) && Row(rows, RootOf(g, p)) <= rows
    ensures t == Row(rows, RootOf(g, p)) ==> Shr(n, t) % 2 == 1 && Shr(FirstLeaf(rows, p), t) % 2 == 0
    ensures t > Row(rows, RootOf(g, p)) ==> Shr(FirstLeaf(rows, p), t) == Shr(n, t)
    decreases t
  {
    hide Row, Layout.WellShaped, Offset, LayoutFor, Pow2, RootOf;
    RootRow(g, rows, n, p);
    var r := Row(rows, RootOf(g, p));
    ShrMul(Offset(rows, p), Row(rows, p), r - Row(rows, p));
    if t > r {
      LeafBits(g, rows, n, p, t - 1);
    }
  }

  lemma ModAdd(x: nat, c: int, k: int)
    requires k > 0
    ensures (x + c * k) % k == x % k
  {
    var q, r := x / k, x % k;
    assert x + c * k == (q + c) * k + r;
    DivModUnique(x + c * k, k, q + c, r);
  }

  /** Shifted up by its row, a position is its first leaf, apart from high bits. */
  lemma {:induction false} ShiftedPosition(rows: nat, p: nat)
    requires Valid(rows, p)
    ensures p * Pow2(Row(rows, p)) == FirstLeaf(rows, p) + (Pow2(Row(rows, p)) - 1) * Pow2(rows + 1)
  {
    hide Row, Pow2;
    RowBounds(rows, p);
    var r, o := Row(rows, p), Offset(rows, p);
    PowStep(rows + 1);
    PowAdd(rows + 1 - r, r);
    ShiftedSum(p, Pow2(r), Pow2(rows + 1), Pow2(rows + 1 - r), o);
  }

  lemma ShiftedSum(p: int, a: int, b: int, c: int, o: int)
    requires p == b - c + o && c * a == b
    ensures p * a == o * a + (a - 1) * b
  {
    assert p * a == b * a - c * a + o * a;
    assert (a - 1) * b == b * a - b;
  }

  /** A binary digit of a word of any length; a negative number stands for a word with ones all the way up. */
  function Digit(x: int, h: nat): (d: int)
    ensures 0 <= d < 2
    decreases h
  {
    if h == 0 then x % 2 else Digit(x / 2, h - 1)
  }

  function FlipLast(x: int): int {
    if x % 2 == 0 then x + 1 else x - 1
  }

  function Complement(x: int): int {
    -1 - x
  }

  lemma {:induction false} ComplementDigit(x: int, h: nat)
    ensures Digit(Complement(x), h) == 1 - Digit(x, h)
    decreases h
  {
    if h > 0 { ComplementDigit(x / 2, h - 1); }
  }

  /** Which way to go, `h` rows above the end of the descent: at every row but the last to the node beside the one
      on the way, for that is the node that holds the next ones. */
  function Turn(rows: nat, p: nat, h: nat): int {
    if h == 0 then p % 2 else 1 - ParentMany(p, h, rows) % 2
  }

  lemma {:induction false} ShrDigit(x: nat, h: nat)
    ensures Digit(x, h) == Shr(x, h) % 2
    decreases h
  {
    if h > 0 {
      ShrDigit(x / 2, h - 1);
      ShrHalf(x, h);
    }
  }

  lemma {:induction false} HighDigit(x: int, c: int, k: nat, h: nat)
    requires h < k
    ensures Digit(x + c * Pow2(k), h) == Digit(x, h)
    decreases h
  {
    hide Pow2;
    PowStep(k);
    TwiceProduct(c, Pow2(k - 1));
    HalfDigits(x, c * Pow2(k - 1));
    if h > 0 { HighDigit(x / 2, c, k - 1, h - 1); }
  }

  lemma TwiceProduct(c: int, a: int)
    ensures c * (2 * a) == 2 * (c * a)
  {
  }

  lemma HalfDigits(x: int, y: int)
    ensures (x + 2 * y) % 2 == x % 2 && (x + 2 * y) / 2 == x / 2 + y
  {
  }

  /** The digits of the offset of a node are the sides of its ancestors. */
  lemma {:induction false} AncestorSide(g: Layout, rows: nat, n: nat, p: nat, h: nat)
    requires LayoutFor(g, rows, n) && p in g.nodes
    requires Valid(rows, p) && Valid(rows, RootOf(g, p)) && Row(rows, p) + h < Row(rows, RootOf(g, p))
    ensures ParentMany(p, h, rows) % 2 == Shr(Offset(rows, p), h) % 2
    decreases h
  {
    hide Row, Layout.WellShaped, Offset, LayoutFor, Pow2, Shr, RootOf;
    LayoutFits(g, rows, n);
    RootOfStep(g, p);
    g.NonRootFacts(p);
    RowStep(rows, p);
    ShrNone(Offset(rows, p));
    if h > 0 {
      g.NodeBound(g.Up(p));
      ShrHalf(Offset(rows, p), h);
      AncestorSide(g, rows, n, g.Up(p), h - 1);
    }
  }

  lemma RootOfStep(g: Layout, p: nat)
    requires g.WellShaped() && p in g.nodes && RootOf(g, p) != p
    ensures !g.IsRoot(p) && RootOf(g, p) == RootOf(g, g.Up(p))
  {
    g.NodeBound(p);
  }

  /** The digits that are returned lead to the position. */
  lemma {:induction false} TurnDigits(g: Layout, rows: nat, n: nat, p: nat, position: int, nr: nat, c: int, t: nat,
                                      h: nat)
    requires LayoutFor(g, rows, n) && p in g.nodes
    requires Valid(rows, p) && Valid(rows, RootOf(g, p)) && t == Row(rows, RootOf(g, p)) && nr == Row(rows, p) &&
             nr + h < t
    requires position * Pow2(nr) == FirstLeaf(rows, p) + c * Pow2(t + 1)
    ensures Digit(Complement(FlipLast(position)), h) == Turn(rows, p, h)
  {
    hide Row, Layout.WellShaped, Offset, LayoutFor, Pow2, Shr, RootOf;
    var o := Offset(rows, p);
    PowAdd(t + 1 - nr, nr);
    Cancel(position, o, c, Pow2(nr), Pow2(t + 1 - nr), Pow2(t + 1));
    HighDigit(o, c, t + 1 - nr, h);
    ShrDigit(o, h);
    AncestorSide(g, rows, n, p, h);
    ComplementDigit(FlipLast(position), h);
    FlipDigit(position, h);
  }

  lemma {:induction false} FlipDigit(x: int, h: nat)
    ensures Digit(FlipLast(x), h) == if h == 0 then 1 - Digit(x, h) else Digit(x, h)
  {
    if h > 0 { assert FlipLast(x) / 2 == x / 2; }
  }

  lemma Cancel(x: int, o: int, c: int, a: int, b: int, ab: int)
    requires a > 0 && b * a == ab && x * a == o * a + c * ab
    ensures x == o + c * b
  {
    assert (x - (o + c * b)) * a == 0 by {
      assert (x - (o + c * b)) * a == x * a - o * a - c * b * a;
      assert c * b * a == c * (b * a);
    }
  }

  /** The highest row, from `t` down, on which there is a root and the number has no bit; -1 if there is none. */
  ghost function StopRow(n: nat, leaf: nat, t: int): (r: int)
    requires t >= -1
    ensures -1 <= r <= t && (r >= 0 ==> RootExistsOnRow(n, r) && Shr(leaf, r) % 2 == 0)
    decreases t + 1
  {
    if t < 0 then -1 else if RootExistsOnRow(n, t) && Shr(leaf, t) % 2 == 0 then t else StopRow(n, leaf, t - 1)
  }

  /** Of a position of the forest that is the row of its root. */
  lemma {:induction false} StopAtRoot(g: Layout, rows: nat, n: nat, p: nat, t: nat)
    requires LayoutFor(g, rows, n) && p in g.nodes
    requires Valid(rows, p) && Valid(rows, RootOf(g, p)) && Row(rows, RootOf(g, p)) <= t
    ensures StopRow(n, FirstLeaf(rows, p), t) == Row(rows, RootOf(g, p))
    decreases t
  {
    hide Row, Layout.WellShaped, Offset, LayoutFor, Shr, FirstLeaf, RootOf;
    LeafBits(g, rows, n, p, t);
    if t > Row(rows, RootOf(g, p)) { StopAtRoot(g, rows, n, p, t - 1); }
  }

  lemma {:induction false} ShrSplit(x: nat, k: nat)
    ensures x == Shr(x, k) * Pow2(k) + x % Pow2(k)
  {
    if k > 0 {
      hide Pow2, Shr;
      ShrSplit(x / 2, k - 1);
      ShrHalf(x, k);
      PowStep(k);
      ModHalf(x, Pow2(k - 1));
      TwiceProduct(Shr(x, k), Pow2(k - 1));
    } else {
      assert Pow2(0) == 1;
    }
  }

  lemma {:induction false} ShrJoined(a: nat, k: nat, r: nat)
    requires r < Pow2(k)
    ensures Shr(a * Pow2(k) + r, k) == a && (a * Pow2(k) + r) % Pow2(k) == r
  {
    var x := a * Pow2(k) + r;
    ShrSplit(x, k);
    DivModUnique(x, Pow2(k), a, r);
    DivModUnique(x, Pow2(k), Shr(x, k), x % Pow2(k));
  }

  lemma {:induction false} ShrFurther(x: nat, k: nat, j: nat)
    ensures Shr(x, k + j) == Shr(Shr(x, k), j)
    decreases j
  {
    if j > 0 { ShrFurther(x, k, j - 1); }
  }

  /** The last bit makes no difference further up. */
  lemma {:induction false} ShrLast(x: nat, y: nat, j: nat)
    requires x / 2 == y / 2 && j > 0
    ensures Shr(x, j) == Shr(y, j)
  {
    ShrHalf(x, j);
    ShrHalf(y, j);
  }

  /** Where the descent to a position ends: in the tree of the row at which the search stops, as far right in it. */
  ghost function LandsAt(rows: nat, n: nat, p: nat): nat
    requires Valid(rows, p) && StopRow(n, FirstLeaf(rows, p), rows) >= Row(rows, p)
  {
    var nr, t := Row(rows, p), StopRow(n, FirstLeaf(rows, p), rows);
    Start(rows, nr) + LandsOff(n, Offset(rows, p), nr, t)
  }

  ghost function LandsOff(n: nat, o: nat, nr: nat, t: nat): (r: nat)
    requires nr <= t && RootExistsOnRow(n, t)
  {
    assert Shr(n, t) >= 1;
    (Shr(n, t) - 1) * Pow2(t - nr) + o % Pow2(t - nr)
  }

  /** The bits of the place where the descent ends. */
  lemma {:induction false} LandsOffFacts(n: nat, o: nat, nr: nat, t: nat)
    requires nr <= t && RootExistsOnRow(n, t)
    ensures var q := LandsOff(n, o, nr, t);
            && Shr(q, t - nr) == Shr(n, t) - 1 && q % Pow2(t - nr) == o % Pow2(t - nr)
            && q < Shr(n, nr)
            && (Shr(o, t - nr) == Shr(n, t) - 1 ==> q == o)
  {
    hide Shr, Pow2;
    var k, a := t - nr, Shr(n, t) - 1;
    ShrJoined(a, k, o % Pow2(k));
    ShrSplit(o, k);
    ShrFurther(n, nr, k);
    ShrSplit(Shr(n, nr), k);
    assert (a + 1) * Pow2(k) == a * Pow2(k) + Pow2(k);
  }

  /** The end of the descent is a position of the forest, in the tree of that row; for a position of the forest it is
      that position. */
  lemma {:induction false} Lands(g: Layout, rows: nat, n: nat, p: nat)
    requires LayoutFor(g, rows, n) && Valid(rows, p)
    ensures var t := StopRow(n, FirstLeaf(rows, p), rows);
            t >= Row(rows, p) ==>
              && var q := LandsAt(rows, n, p);
              && q in g.nodes && Valid(rows, q) && Row(rows, q) == Row(rows, p)
              && Offset(rows, q) == LandsOff(n, Offset(rows, p), Row(rows, p), t)
              && Valid(rows, RootOf(g, q)) && Row(rows, RootOf(g, q)) == t
              && (q == p <==> p in g.nodes)
    ensures p in g.nodes ==> StopRow(n, FirstLeaf(rows, p), rows) >= Row(rows, p)
  {
    hide Row, Layout.WellShaped, LayoutFor, Shr, FirstLeaf, RootOf, Pow2, StopRow, LandsOff, LandsAt, Offset,
         RootExistsOnRow, InForest;
    var nr, t, o := Row(rows, p), StopRow(n, FirstLeaf(rows, p), rows), Offset(rows, p);
    LayoutFits(g, rows, n);
    if p in g.nodes {
      RootRow(g, rows, n, p);
      StopAtRoot(g, rows, n, p, rows);
    }
    if t >= nr {
      LandsOffFacts(n, o, nr, t);
      LandsInForest(rows, n, p);
      var q := LandsAt(rows, n, p);
      LayoutAt(g, rows, n, q);
      RootRow(g, rows, n, q);
      StopAtRoot(g, rows, n, q, rows);
      FirstLeafIs(rows, q);
      SameStop(n, rows, nr, Offset(rows, q), t);
      if p in g.nodes { SamePlace(rows, p, q); }
    }
  }

  lemma {:induction false} LandsInForest(rows: nat, n: nat, p: nat)
    requires Valid(rows, p) && StopRow(n, FirstLeaf(rows, p), rows) >= Row(rows, p) && n <= Pow2(rows)
    ensures var q, nr := LandsAt(rows, n, p), Row(rows, p);
            && Valid(rows, q) && Row(rows, q) == nr && InForest(rows, n, q)
            && Offset(rows, q) == LandsOff(n, Offset(rows, p), nr, StopRow(n, FirstLeaf(rows, p), rows))
  {
    hide Row, Shr, FirstLeaf, Pow2, StopRow, LandsOff, Start, Offset, RootExistsOnRow;
    var nr, t, o := Row(rows, p), StopRow(n, FirstLeaf(rows, p), rows), Offset(rows, p);
    LandsOffFacts(n, o, nr, t);
    PlaceOnRow(rows, n, nr, LandsOff(n, o, nr, t));
  }

  lemma {:induction false} PlaceOnRow(rows: nat, n: nat, row: nat, o: nat)
    requires row <= rows && n <= Pow2(rows) && o < Shr(n, row)
    ensures var q := Start(rows, row) + o;
            Valid(rows, q) && Row(rows, q) == row && Offset(rows, q) == o && InForest(rows, n, q)
  {
    hide Row, Shr, Pow2;
    ShrBound(n, rows, row);
    StartNext(rows, row);
    RowUnique(rows, Start(rows, row) + o, row);
  }

  lemma StartNext(rows: nat, row: nat)
    requires row <= rows
    ensures Start(rows, row + 1) == Start(rows, row) + Pow2(rows - row)
    ensures Start(rows, row) + Pow2(rows - row) < 2 * Pow2(rows)
  {
    hide Pow2;
    PowStep(rows + 1 - row);
    PowPositive(rows - row);
  }

  lemma PowPositive(k: nat)
    ensures Pow2(k) > 0
  {
  }

  /** A number whose bits from row `t` up are those of the leaves, but for the bit of that row, stops there. */
  lemma {:induction false} SameStop(n: nat, rows: nat, nr: nat, o: nat, t: nat)
    requires nr <= t <= rows && RootExistsOnRow(n, t) && Shr(o, t - nr) == Shr(n, t) - 1
    ensures StopRow(n, o * Pow2(nr), rows) == t
  {
    hide Shr, Pow2;
    SameStopFrom(n, rows, nr, o, t);
  }

  lemma {:induction false} SameStopFrom(n: nat, s: nat, nr: nat, o: nat, t: nat)
    requires nr <= t <= s && RootExistsOnRow(n, t) && Shr(o, t - nr) == Shr(n, t) - 1
    ensures StopRow(n, o * Pow2(nr), s) == t
    decreases s
  {
    hide Shr, Pow2;
    ShrMul(o, nr, s - nr);
    if s > t {
      ShrFurther(n, t, s - t);
      ShrFurther(o, t - nr, s - t);
      ShrLast(Shr(n, t), Shr(o, t - nr), s - t);
      SameStopFrom(n, s - 1, nr, o, t);
    }
  }

  /** The difference of two bytes. */
  function MinusByte(a: int, b: int): int {
    if a >= b then a - b else a - b + 256
  }

  /** The index of the tree a position is in, counted from the biggest; how many rows the position is below its root;
      and the way down to it.  For any position, these are those of the place where the descent ends, if there is
      one. */
  method DetectOffset(p: nat, n: nat, ghost g: Layout) returns (ok: bool, tree: nat, branchLen: int, bits: int)
    requires LayoutFor(g, TreeRows(n), n) && Valid(TreeRows(n), p)
    ensures ok <==> StopRow(n, FirstLeaf(TreeRows(n), p), TreeRows(n)) >= 0
    ensures ok ==>
              var rows := TreeRows(n);
              var t := StopRow(n, FirstLeaf(rows, p), rows);
              && tree == BiggerTrees(n, t, rows) && branchLen == MinusByte(t, Row(rows, p)) && RootExistsOnRow(n, t)
              && (t >= Row(rows, p) ==> forall h: nat :: h < branchLen ==>
                  Digit(bits, h) == Turn(rows, LandsAt(rows, n, p), h))
    ensures p in g.nodes ==>
              && ok && Valid(TreeRows(n), RootOf(g, p))
              && tree == BiggerTrees(n, Row(TreeRows(n), RootOf(g, p)), TreeRows(n))
              && branchLen >= 0 && branchLen + Row(TreeRows(n), p) == Row(TreeRows(n), RootOf(g, p))
              && (forall h: nat :: h < branchLen ==> Digit(bits, h) == Turn(TreeRows(n), p, h))
  {
    hide Row, Layout.WellShaped, Offset, LayoutFor, Pow2, Shr, FirstLeaf, Turn, Digit, RootOf, BiggerTrees, LandsAt,
         StopRow, RootExistsOnRow;
    ghost var rows := TreeRows(n);
    Lands(g, rows, n, p);
    var nr := Row(TreeRows(n), p);
    ghost var leaf := FirstLeaf(rows, p);
    var position: int := p;
    var tRows: int := TreeRows(n);
    ghost var c: int := Pow2(nr) - 1;
    tree, ok, branchLen, bits := 0, false, 0, 0;
    NoBigger(n, rows);
    ShiftedPosition(rows, p);
    while tRows < 0 || (position * Pow2(nr)) % Pow2(tRows + 1) >= (if RootExistsOnRow(n, tRows) then Pow2(tRows) else 0)
      invariant -1 <= tRows <= rows && StopRow(n, leaf, tRows) == StopRow(n, leaf, rows)
      invariant position * Pow2(nr) == leaf + c * Pow2(tRows + 1)
      invariant tRows >= 0 ==> tree == BiggerTrees(n, tRows, rows)
      decreases tRows
    {
      StopStep(n, leaf, tRows);
      if tRows < 0 {
        return;
      }
      BitCompare(n, leaf, tRows, position, nr, c);
      c := 2 * c;
      PowTwice(tRows, c / 2);
      if tRows > 0 { NextTree(n, tRows, rows); }
      if RootExistsOnRow(n, tRows) {
        SubtractTree(position, tRows, nr, leaf, c);
        c := c - Pow2(nr);
        position := position - Pow2(tRows);
        tree := tree + 1;
      }
      tRows := tRows - 1;
    }
    StopStep(n, leaf, tRows);
    BitCompare(n, leaf, tRows, position, nr, c);
    ok, branchLen, bits := true, MinusByte(tRows, nr), Complement(FlipLast(position));
    if tRows >= nr { AllTurns(g, rows, n, p, position, nr, c, tRows); }
    if p in g.nodes {
      RootRow(g, rows, n, p);
      StopAtRoot(g, rows, n, p, rows);
    }
  }

  lemma StopStep(n: nat, leaf: nat, t: int)
    requires t >= -1
    ensures t < 0 ==> StopRow(n, leaf, t) == -1
    ensures t >= 0 ==>
              StopRow(n, leaf, t) ==
              if RootExistsOnRow(n, t) && Shr(leaf, t) % 2 == 0 then t else StopRow(n, leaf, t - 1)
  {
    hide Shr;
  }

  lemma {:induction false} AllTurns(g: Layout, rows: nat, n: nat, p: nat, position: int, nr: nat, c: int, t: nat)
    requires LayoutFor(g, rows, n) && Valid(rows, p) && t == StopRow(n, FirstLeaf(rows, p), rows) &&
             nr == Row(rows, p) <= t
    requires position * Pow2(nr) == FirstLeaf(rows, p) + c * Pow2(t + 1)
    ensures forall h: nat :: h < t - nr ==>
              Digit(Complement(FlipLast(position)), h) == Turn(rows, LandsAt(rows, n, p), h)
  {
    hide Row, LayoutFor, Pow2, FirstLeaf, Turn, RootOf, Digit, LandsAt, StopRow, Offset, Shr, LandsOff;
    Lands(g, rows, n, p);
    var q := LandsAt(rows, n, p);
    var c' := SameLowBits(rows, n, p, q, position, c, t);
    forall h: nat | h < t - nr
      ensures Digit(Complement(FlipLast(position)), h) == Turn(rows, q, h)
    {
      TurnDigits(g, rows, n, q, position, nr, c', t, h);
    }
  }

  /** Below the row at which the search stops, the bits are those of the place where the descent ends. */
  lemma {:induction false} SameLowBits(rows: nat, n: nat, p: nat, q: nat, position: int, c: int, t: nat)
    returns (c': int)
    requires Valid(rows, p) && Valid(rows, q) && t == StopRow(n, FirstLeaf(rows, p), rows) && Row(rows, p) <= t
    requires Row(rows, q) == Row(rows, p) && Offset(rows, q) == LandsOff(n, Offset(rows, p), Row(rows, p), t)
    requires position * Pow2(Row(rows, p)) == FirstLeaf(rows, p) + c * Pow2(t + 1)
    ensures position * Pow2(Row(rows, p)) == FirstLeaf(rows, q) + c' * Pow2(t + 1)
  {
    hide Row, Pow2, StopRow, Offset, Shr, LandsOff, FirstLeaf, RootExistsOnRow;
    var nr, o, o' := Row(rows, p), Offset(rows, p), Offset(rows, q);
    var k := t - nr;
    LandsOffFacts(n, o, nr, t);
    FirstLeafIs(rows, p);
    FirstLeafIs(rows, q);
    ShrMul(o, nr, k);
    ShrSplit(o, k);
    ShrSplit(o', k);
    OddBefore(n, t);
    PowAdd(k, nr);
    PowStep(t + 1);
    c' := c + Shr(o, k) / 2 - Shr(o', k) / 2;
    LowBits(o, o', Shr(o, k), Shr(o', k), o % Pow2(k), Pow2(k), Pow2(nr), Pow2(t), c);
  }

  lemma FirstLeafIs(rows: nat, p: nat)
    requires Valid(rows, p)
    ensures FirstLeaf(rows, p) == Offset(rows, p) * Pow2(Row(rows, p))
  {
    hide Row, Offset, Pow2;
  }

  lemma OddBefore(n: nat, t: nat)
    requires RootExistsOnRow(n, t)
    ensures (Shr(n, t) - 1) % 2 == 0 && Shr(n, t) >= 1
  {
    hide Shr;
  }

  lemma {:induction false} LowBits(o: int, o': int, a: int, b: int, r: int, k: int, m: int, t: int, c: int)
    requires o == a * k + r && o' == b * k + r && k * m == t && a % 2 == 0 && b % 2 == 0
    ensures o * m + c * (2 * t) == o' * m + (c + a / 2 - b / 2) * (2 * t)
  {
    assert o * m - o' * m == (a - b) * (k * m) by {
      assert o - o' == (a - b) * k;
      assert (o - o') * m == (a - b) * k * m;
    }
    var x := a / 2 - b / 2;
    assert (a - b) * t == (2 * x) * t;
    assert (c + x) * (2 * t) == c * (2 * t) + (2 * x) * t;
  }

  lemma NoBigger(n: nat, rows: nat)
    ensures BiggerTrees(n, rows, rows) == 0
  {
  }

  lemma NextTree(n: nat, t: nat, rows: nat)
    requires 0 < t <= rows
    ensures BiggerTrees(n, t - 1, rows) == BiggerTrees(n, t, rows) + if RootExistsOnRow(n, t) then 1 else 0
  {
  }

  lemma PowTwice(t: nat, c: int)
    ensures c * Pow2(t + 1) == (2 * c) * Pow2(t)
  {
    assert Pow2(t + 1) == 2 * Pow2(t);
  }

  lemma SubtractTree(position: int, t: nat, nr: nat, leaf: nat, c: int)
    requires position * Pow2(nr) == leaf + c * Pow2(t)
    ensures (position - Pow2(t)) * Pow2(nr) == leaf + (c - Pow2(nr)) * Pow2(t)
  {
    SubtractBoth(position, Pow2(t), Pow2(nr), leaf, c);
  }

  lemma SubtractBoth(x: int, a: int, b: int, l: int, c: int)
    requires x * b == l + c * a
    ensures (x - a) * b == l + (c - b) * a
  {
    assert (x - a) * b == x * b - a * b;
    assert (c - b) * a == c * a - a * b;
  }

  lemma {:induction false} BitCompare(n: nat, leaf: nat, t: nat, position: int, nr: nat, c: int)
    requires position * Pow2(nr) == leaf + c * Pow2(t + 1)
    ensures (position * Pow2(nr)) % Pow2(t + 1) >= (if RootExistsOnRow(n, t) then Pow2(t) else 0)
            <==> !(RootExistsOnRow(n, t) && Shr(leaf, t) % 2 == 0)
  {
    hide Pow2, Shr;
    ModAdd(leaf, c, Pow2(t + 1));
    BitByMod(leaf, t);
  }

  /** Two positions are in the same tree exactly when the trees have the same index. */
  lemma {:induction false} SameIndex(g: Layout, rows: nat, n: nat, p: nat, q: nat)
    requires LayoutFor(g, rows, n) && p in g.nodes && q in g.nodes
    ensures Valid(rows, RootOf(g, p)) && Valid(rows, RootOf(g, q))
    ensures BiggerTrees(n, Row(rows, RootOf(g, p)), rows) == BiggerTrees(n, Row(rows, RootOf(g, q)), rows)
            <==> RootOf(g, p) == RootOf(g, q)
  {
    hide Row, Layout.WellShaped, Offset, InForest, BiggerTrees;
    var r, s := RootOf(g, p), RootOf(g, q);
    RootOfFacts(g, p);
    RootOfFacts(g, q);
    RootRow(g, rows, n, p);
    RootRow(g, rows, n, q);
    LayoutAt(g, rows, n, r);
    LayoutAt(g, rows, n, s);
    RootIsLeft(rows, n, r);
    RootIsLeft(rows, n, s);
    if Row(rows, r) < Row(rows, s) {
      BiggerTreesOrder(n, Row(rows, r), Row(rows, s), rows);
    } else if Row(rows, s) < Row(rows, r) {
      BiggerTreesOrder(n, Row(rows, s), Row(rows, r), rows);
    } else {
      SamePlace(rows, r, s);
    }
  }

  lemma RootOfRoot(g: Layout, p: nat)
    requires g.IsRoot(p)
    ensures RootOf(g, p) == p
  {
  }

  /** Above every node there is exactly one root. */
  lemma {:induction false} OneRoot(g: Layout, p: nat, r: nat)
    requires g.WellShaped() && p in g.nodes
    ensures g.IsRoot(r) && AtOrAbove(g, r, p) <==> r == RootOf(g, p)
  {
    hide Above, Layout.WellShaped, RootOf;
    RootOfFacts(g, p);
    if g.IsRoot(r) && AtOrAbove(g, r, p) {
      SameTree(g, r, p);
      RootOfRoot(g, r);
    }
  }
}
