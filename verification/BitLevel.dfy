/** The position arithmetic on 64-bit words. */
module BitLevel {
  // Words are natural numbers below 2^64; shifting left drops what does not fit.

  import opened Positions
  import opened Geometry
  import opened Navigation
  import opened Inverse
  import opened TreeIndex

  function And(a: nat, b: nat): nat {
    if a == 0 || b == 0 then 0 else 2 * And(a / 2, b / 2) + (a % 2) * (b % 2)
  }

  function Or(a: nat, b: nat): nat {
    if a == 0 then b else if b == 0 then a
    else 2 * Or(a / 2, b / 2) + (if a % 2 == 1 || b % 2 == 1 then 1 else 0)
  }

  function Shl(a: nat, k: nat): nat {
    (a * Pow2(k)) % Pow2(64)
  }

  /** All 64 bits flipped. */
  function Not(a: nat): nat
    requires a < Pow2(64)
  {
    Pow2(64) - 1 - a
  }

  /** `(2 << rows) - 1` */
  function Mask(rows: nat): nat
    requires rows <= 62
  {
    MaskFits(rows);
    Shl(2, rows) - 1
  }

  lemma {:induction false} MaskFits(rows: nat)
    requires rows <= 62
    ensures Shl(2, rows) == Pow2(rows + 1) && Pow2(rows + 1) <= Pow2(63) < Pow2(64)
  {
    hide Pow2;
    PowStep(rows + 1);
    PowMono(rows + 1, 63);
    PowStep(64);
    SmallMod(2 * Pow2(rows), Pow2(64));
  }

  lemma MulTwo(b: nat, x: nat)
    ensures b * (2 * x) == 2 * (b * x)
  {
  }

  /** The low bits. */
  lemma {:induction false} AndMask(a: nat, k: nat)
    ensures And(a, Pow2(k) - 1) == a % Pow2(k)
  {
    hide And, Pow2;
    if k > 0 {
      PowStep(k);
      var m := Pow2(k - 1);
      AndMask(a / 2, k - 1);
      ModHalf(a, m);
      AndStep(a, 2 * m - 1);
    } else {
      PowZero();
      AndNone(a);
    }
  }

  lemma AndNone(a: nat)
    ensures And(a, 0) == 0
  {
  }

  lemma AndStep(a: nat, b: nat)
    ensures And(a, b) == 2 * And(a / 2, b / 2) + (a % 2) * (b % 2)
  {
  }

  lemma OrStep(a: nat, b: nat)
    ensures Or(a, b) == 2 * Or(a / 2, b / 2) + (if a % 2 == 1 || b % 2 == 1 then 1 else 0)
  {
    if a == 0 { assert Or(0, b / 2) == b / 2; }
  }

  /** Words without common bits. */
  lemma {:induction false} OrApart(a: nat, b: nat, k: nat)
    requires a < Pow2(k)
    ensures Or(a, b * Pow2(k)) == a + b * Pow2(k)
    decreases k
  {
    hide Or, Pow2;
    if k == 0 {
      PowZero();
      OrZero(b);
    } else {
      PowStep(k);
      MulTwo(b, Pow2(k - 1));
      OrApart(a / 2, b, k - 1);
      OrStep(a, b * Pow2(k));
    }
  }

  lemma PowZero()
    ensures Pow2(0) == 1
  {
  }

  lemma OrZero(b: nat)
    ensures Or(0, b) == b
  {
  }

  lemma {:induction false} AndHigh(a: nat, c: nat, k: nat)
    ensures And(a, c * Pow2(k)) == And(Shr(a, k), c) * Pow2(k)
    decreases k
  {
    hide And, Pow2, Shr;
    if k == 0 {
      PowZero();
      ShrNone(a);
    } else {
      PowStep(k);
      MulTwo(c, Pow2(k - 1));
      AndHigh(a / 2, c, k - 1);
      AndStep(a, c * Pow2(k));
      ShrHalf(a, k);
      MulTwo(And(Shr(a, k), c), Pow2(k - 1));
    }
  }

  /** Ones, shifted to the left end of the word. */
  lemma {:induction false} ShlOnes(q: nat, k: nat)
    requires k <= 64
    ensures var s := if q <= 64 - k then q else 64 - k; Shl(Pow2(q) - 1, k) == (Pow2(s) - 1) * Pow2(k)
  {
    hide Pow2;
    PowAdd(q, k);
    assert (Pow2(q) - 1) * Pow2(k) == Pow2(q) * Pow2(k) - Pow2(k);
    PowMono(k, q + k);
    if q <= 64 - k {
      PowMono(q + k, 64);
      SmallMod(Pow2(q + k) - Pow2(k), Pow2(64));
    } else {
      var s := 64 - k;
      PowAdd(q - s, 64);
      PowAdd(s, k);
      assert (Pow2(s) - 1) * Pow2(k) == Pow2(64) - Pow2(k);
      PowMono(k, 64);
      assert Pow2(q + k) - Pow2(k) == (Pow2(q - s) - 1) * Pow2(64) + (Pow2(64) - Pow2(k));
      DivModUnique(Pow2(q + k) - Pow2(k), Pow2(64), Pow2(q - s) - 1, Pow2(64) - Pow2(k));
    }
  }

  lemma SmallMod(a: nat, m: nat)
    requires a < m
    ensures a % m == a
  {
  }

  lemma {:induction false} MaskIs(rows: nat)
    requires rows <= 62
    ensures Mask(rows) == Pow2(rows + 1) - 1
  {
    hide Pow2, Shl;
    MaskFits(rows);
  }

  lemma {:induction false} ShrBelow(p: nat, k: nat, r: nat)
    requires p < Pow2(r) && k <= r
    ensures Shr(p, k) < Pow2(r - k)
    decreases k
  {
    if k > 0 {
      ShrBelow(p, k - 1, r);
      PowStep(r - k + 1);
    }
  }

  /** Ones put before `a`, up to the length of a position. */
  lemma {:induction false} HighOnes(a: nat, k: nat, rows: nat)
    requires rows <= 62 && k <= rows + 1 && a < Pow2(k)
    ensures And(Or(a, Shl(Mask(rows), k)), Mask(rows)) == a + Pow2(rows + 1) - Pow2(k)
  {
    hide Pow2, Shl, And, Or, Mask;
    MaskIs(rows);
    ShlOnes(rows + 1, k);
    var s := if rows + 1 <= 64 - k then rows + 1 else 64 - k;
    OrApart(a, Pow2(s) - 1, k);
    OnesTimes(s, k);
    PowMono(k, s + k);
    AndMask(a + Pow2(s + k) - Pow2(k), rows + 1);
    ModTop(a, k, s + k, rows + 1);
  }

  lemma {:induction false} OnesTimes(s: nat, k: nat)
    ensures (Pow2(s) - 1) * Pow2(k) == Pow2(s + k) - Pow2(k)
  {
    hide Pow2;
    PowAdd(s, k);
    LessOne(Pow2(s), Pow2(k));
  }

  lemma LessOne(x: nat, m: nat)
    requires x >= 1
    ensures (x - 1) * m == x * m - m
  {
  }

  lemma {:induction false} ModTop(a: nat, k: nat, t: nat, r: nat)
    requires k <= r <= t && a < Pow2(k)
    ensures Pow2(k) <= Pow2(t) && (a + Pow2(t) - Pow2(k)) % Pow2(r) == a + Pow2(r) - Pow2(k)
  {
    hide Pow2;
    PowMono(k, r);
    PowMono(k, t);
    PowAdd(t - r, r);
    LessOne(Pow2(t - r), Pow2(r));
    DivModUnique(a + Pow2(t) - Pow2(k), Pow2(r), Pow2(t - r) - 1, Pow2(r) - Pow2(k) + a);
  }

  /** `(position >> 1) | (1 << forestRows)` */
  lemma {:induction false} ParentBits(p: nat, rows: nat)
    requires rows <= 62 && p < Pow2(rows + 1)
    ensures Or(Shr(p, 1), Shl(1, rows)) == Parent(rows, p)
  {
    hide Pow2, Or;
    ShrBelow(p, 1, rows + 1);
    assert Shr(p, 1) == p / 2;
    MaskFits(rows);
    PowStep(rows + 1);
    SmallMod(Pow2(rows), Pow2(64));
    OrApart(p / 2, 1, rows);
  }

  /** `(position << 1) & mask`, and the same with the last bit set */
  lemma {:induction false} ChildBits(p: nat, rows: nat)
    requires rows <= 62 && Pow2(rows) <= p < Pow2(rows + 1)
    ensures And(Shl(p, 1), Mask(rows)) == LeftChild(rows, p)
    ensures Or(And(Shl(p, 1), Mask(rows)), 1) == RightChild(rows, p)
  {
    hide Pow2, Or, And, Mask;
    MaskFits(rows);
    MaskIs(rows);
    PowStep(rows + 1);
    PowStep(64);
    PowOne();
    SmallMod(2 * p, Pow2(64));
    AndMask(2 * p, rows + 1);
    DivModUnique(2 * p, Pow2(rows + 1), 1, 2 * (p - Pow2(rows)));
    OrLast(2 * (p - Pow2(rows)));
  }

  lemma PowOne()
    ensures Pow2(1) == 2
  {
  }

  lemma {:induction false} OrLast(a: nat)
    ensures Or(a, 1) == if a % 2 == 0 then a + 1 else a
  {
    hide Or;
    OrStep(a, 1);
    OrNone(a / 2);
  }

  lemma OrNone(a: nat)
    ensures Or(a, 0) == a
  {
  }

  /** Ancestors in closed form. */
  lemma {:induction false} RiseClosed(p: nat, rise: nat, rows: nat)
    requires rise <= rows
    ensures ParentMany(p, rise, rows) == Start(rows, rise) + Shr(p, rise)
    decreases rise
  {
    if rise > 0 {
      hide Pow2;
      RiseClosed(Parent(rows, p), rise - 1, rows);
      ShrHalf(p, rise);
      PowStep(rows + 2 - rise);
      if rise > 1 { ShrHigh(p / 2, rows, rise - 1); } else { assert Shr(Parent(rows, p), 0) == Parent(rows, p); }
    }
  }

  /** `(position >> rise | (mask << (forestRows - (rise - 1)))) & mask` */
  lemma {:induction false} ParentManyBits(p: nat, rise: nat, rows: nat)
    requires rows <= 62 && p < Pow2(rows + 1) && 0 < rise <= rows
    ensures And(Or(Shr(p, rise), Shl(Mask(rows), rows - (rise - 1))), Mask(rows)) == ParentMany(p, rise, rows)
  {
    hide Pow2, Or, And, Mask, Shl, ParentMany, Shr;
    ShrBelow(p, rise, rows + 1);
    HighOnes(Shr(p, rise), rows - (rise - 1), rows);
    RiseClosed(p, rise, rows);
    PowStep(rows + 1);
  }

  /** `leaves & (mask << (h + 1))` */
  lemma {:induction false} UpperLeaves(n: nat, j: nat, rows: nat)
    requires rows <= 62 && n < Pow2(rows + 1) && j <= rows + 1
    ensures And(n, Shl(Mask(rows), j)) == Shr(n, j) * Pow2(j)
  {
    hide Pow2, And, Mask, Shl, Shr;
    MaskIs(rows);
    ShlOnes(rows + 1, j);
    var s := if rows + 1 <= 64 - j then rows + 1 else 64 - j;
    AndHigh(n, Pow2(s) - 1, j);
    AndMask(Shr(n, j), s);
    ShrFits(n, j, rows, s);
    SmallMod(Shr(n, j), Pow2(s));
  }

  /** That, shifted down by `h`, with ones put before it. */
  lemma {:induction false} RootPositionBits(n: nat, h: nat, rows: nat)
    requires rows <= 62 && n <= Pow2(rows) && h <= rows
    ensures And(Or(Shr(And(n, Shl(Mask(rows), h + 1)), h), Shl(Mask(rows), rows + 1 - h)), Mask(rows)) ==
            RootPosition(n, h, rows)
  {
    hide Pow2, Or, And, Mask, Shl, Shr;
    PowStep(rows + 1);
    UpperLeaves(n, h + 1, rows);
    PowStep(h + 1);
    MulTwo(Shr(n, h + 1), Pow2(h));
    TwiceTimes(Shr(n, h + 1), Pow2(h));
    ShrMul(2 * Shr(n, h + 1), h, 0);
    ShrNone(2 * Shr(n, h + 1));
    ShrBelow(n, h, rows + 1);
    ShrNext(n, h);
    HighOnes(2 * Shr(n, h + 1), rows + 1 - h, rows);
  }

  lemma TwiceTimes(a: nat, x: nat)
    ensures (2 * a) * x == 2 * (a * x)
  {
  }

  lemma {:induction false} ShrFits(n: nat, j: nat, rows: nat, s: nat)
    requires n < Pow2(rows + 1) && j <= rows + 1 && s >= rows + 1 - j
    ensures Shr(n, j) < Pow2(s)
  {
    ShrBelow(n, j, rows + 1);
    PowMono(rows + 1 - j, s);
  }

  lemma ShrNext(n: nat, h: nat)
    ensures Shr(n, h + 1) == Shr(n, h) / 2
  {
  }

  lemma {:induction false} OrComm(a: nat, b: nat)
    ensures Or(a, b) == Or(b, a)
    decreases a
  {
    if a > 0 && b > 0 { OrComm(a / 2, b / 2); }
  }

  /** `val & ^mask` with `mask` the low `j` bits */
  lemma {:induction false} ClearLow(v: nat, j: nat)
    requires v < Pow2(64) && j <= 64
    ensures Pow2(j) - 1 < Pow2(64) && And(v, Not(Pow2(j) - 1)) == Shr(v, j) * Pow2(j)
  {
    hide Pow2, And, Shr;
    PowMono(j, 64);
    OnesTimes(64 - j, j);
    AndHigh(v, Pow2(64 - j) - 1, j);
    AndMask(Shr(v, j), 64 - j);
    ShrBelow(v, j, 64);
    SmallMod(Shr(v, j), Pow2(64 - j));
  }

  lemma {:induction false} RemoveClosed(v: nat, k: nat)
    ensures RemoveBit(v, k) == Shr(v, k + 1) * Pow2(k) + v % Pow2(k)
    decreases k
  {
    hide Pow2, Shr, RemoveBit;
    RemoveBitStep(v, k);
    ShrHalf(v, k + 1);
    if k > 0 {
      RemoveClosed(v / 2, k - 1);
      PowStep(k);
      ModHalf(v, Pow2(k - 1));
      MulTwo(Shr(v, k + 1), Pow2(k - 1));
    } else {
      PowZero();
      ShrNone(v / 2);
    }
  }

  lemma {:induction false} AddClosed(v: nat, k: nat, b: bool)
    ensures AddBit(v, k, b) == Shr(v, k) * Pow2(k + 1) + (if b then Pow2(k) else 0) + v % Pow2(k)
    decreases k
  {
    hide Pow2, Shr, AddBit;
    AddBitStep(v, k, b);
    PowStep(k + 1);
    if k > 0 {
      AddClosed(v / 2, k - 1, b);
      PowStep(k);
      ShrHalf(v, k);
      ModHalf(v, Pow2(k - 1));
      MulTwo(Shr(v, k), Pow2(k));
    } else {
      PowZero();
      ShrNone(v);
    }
  }

  /** `((val & ^((2 << bit) - 1)) >> 1) | (val & ((1 << bit) - 1))` */
  lemma {:induction false} RemoveBitBits(v: nat, bit: nat)
    requires v < Pow2(64) && bit <= 62
    ensures Pow2(bit + 1) - 1 < Pow2(64)
    ensures Or(Shr(And(v, Not(Pow2(bit + 1) - 1)), 1), And(v, Pow2(bit) - 1)) == RemoveBit(v, bit)
  {
    hide Pow2, And, Or, Shr, RemoveBit, Not;
    PowMono(bit + 1, 64);
    ClearLow(v, bit + 1);
    AndMask(v, bit);
    var u := Shr(v, bit + 1);
    PowStep(bit + 1);
    MulTwo(u, Pow2(bit));
    Halve(u * Pow2(bit));
    OrApart(v % Pow2(bit), u, bit);
    OrComm(v % Pow2(bit), u * Pow2(bit));
    RemoveClosed(v, bit);
  }

  lemma Halve(a: nat)
    ensures Shr(2 * a, 1) == a
  {
    assert Shr(2 * a, 0) == 2 * a;
  }

  /** A bit that is not set. */
  lemma {:induction false} OrBit(x: nat, k: nat)
    requires Shr(x, k) % 2 == 0
    ensures Or(x, Pow2(k)) == x + Pow2(k)
    decreases k
  {
    hide Pow2, Or, Shr;
    OrStep(x, Pow2(k));
    if k > 0 {
      PowStep(k);
      ShrHalf(x, k);
      OrBit(x / 2, k - 1);
    } else {
      PowZero();
      ShrNone(x);
      OrNone(x / 2);
    }
  }

  /** `((val & ^mask) << 1) | (val & mask)`, with the bit set at `place` if there is one to add */
  lemma {:induction false} AddBitBits(v: nat, place: nat, bit: bool)
    requires v < Pow2(63) && place <= 62
    ensures Pow2(place) - 1 < Pow2(64)
    ensures var w := Or(Shl(And(v, Not(Pow2(place) - 1)), 1), And(v, Pow2(place) - 1));
            (if bit then Or(w, Pow2(place)) else w) == AddBit(v, place, bit)
  {
    hide Pow2, And, Or, Shr, AddBit, Not;
    PowStep(64);
    PowMono(place, 64);
    ClearLow(v, place);
    AndMask(v, place);
    PowOne();
    var u, low := Shr(v, place), v % Pow2(place);
    PowStep(place + 1);
    MulTwo(u, Pow2(place));
    ShrTimes(v, place);
    SmallMod(2 * (u * Pow2(place)), Pow2(64));
    PowMono(place, place + 1);
    OrApart(low, u, place + 1);
    OrComm(low, u * Pow2(place + 1));
    AddClosed(v, place, bit);
    if bit {
      BitAbsent(u, low, place);
      OrBit(low + u * Pow2(place + 1), place);
    }
  }

  lemma {:induction false} ShrTimes(v: nat, k: nat)
    ensures v == Shr(v, k) * Pow2(k) + v % Pow2(k)
    decreases k
  {
    hide Pow2, Shr;
    if k > 0 {
      ShrTimes(v / 2, k - 1);
      ShrHalf(v, k);
      PowStep(k);
      MulTwo(Shr(v, k), Pow2(k - 1));
      ModHalf(v, Pow2(k - 1));
    } else {
      PowZero();
      ShrNone(v);
    }
  }

  lemma {:induction false} BitAbsent(u: nat, low: nat, k: nat)
    requires low < Pow2(k)
    ensures Shr(low + u * Pow2(k + 1), k) % 2 == 0
    decreases k
  {
    hide Pow2, Shr;
    PowStep(k + 1);
    MulTwo(u, Pow2(k));
    if k > 0 {
      PowStep(k);
      MulTwo(u, Pow2(k - 1));
      ShrHalf(low + u * Pow2(k + 1), k);
      BitAbsent(u, low / 2, k - 1);
    } else {
      PowZero();
      ShrNone(low + u * Pow2(1));
    }
  }

  lemma {:induction false} TestBit(p: nat, k: nat)
    ensures And(p, Pow2(k)) != 0 <==> Shr(p, k) % 2 == 1
  {
    hide Pow2, And, Shr;
    AndHigh(p, 1, k);
    AndOne(Shr(p, k));
  }

  lemma {:induction false} AndOne(a: nat)
    ensures And(a, 1) == a % 2
  {
    hide And;
    AndStep(a, 1);
    AndNone(a / 2);
  }

  /** The bits of a position, from the top: ones for each row, then a zero. */
  lemma {:induction false} RowBits(rows: nat, p: nat, h: nat)
    requires Valid(rows, p) && h <= Row(rows, p)
    ensures Row(rows, p) <= rows
    ensures Shr(p, rows - h) % 2 == 1 <==> h < Row(rows, p)
    decreases p
  {
    hide Pow2, Shr;
    RowBounds(rows, p);
    if p < Pow2(rows) {
      ShrBelow(p, rows, rows);
      PowZero();
    } else {
      var x := p - Pow2(rows);
      RowUnfold(rows, p);
      if h == 0 {
        TopBit(p, rows);
      } else {
        RowBits(rows, LeftChild(rows, p), h - 1);
        ShrHigh(x, rows, rows - h);
        PowStep(h);
        ShrHalf(2 * x, rows - h + 1);
      }
    }
  }

  lemma RowUnfold(rows: nat, p: nat)
    requires Valid(rows, p) && p >= Pow2(rows)
    ensures Valid(rows, LeftChild(rows, p)) && LeftChild(rows, p) < p
    ensures Row(rows, p) == 1 + Row(rows, LeftChild(rows, p))
  {
  }

  lemma {:induction false} TopBit(p: nat, r: nat)
    requires Pow2(r) <= p < 2 * Pow2(r)
    ensures Shr(p, r) == 1
    decreases r
  {
    hide Pow2, Shr;
    if r > 0 {
      PowStep(r);
      ShrHalf(p, r);
      TopBit(p / 2, r - 1);
    } else {
      PowZero();
      ShrNone(p);
    }
  }

  /** The row of a position: count the ones from the top. */
  method DetectRow(position: nat, forestRows: nat) returns (h: nat)
    requires Valid(forestRows, position)
    ensures h == Row(forestRows, position)
  {
    hide Pow2, And, Row, Shr;
    RowBounds(forestRows, position);
    var marker := Pow2(forestRows);
    h := 0;
    RowBits(forestRows, position, 0);
    TestBit(position, forestRows);
    while And(position, marker) != 0
      invariant h <= Row(forestRows, position) <= forestRows && marker == Pow2(forestRows - h)
      invariant And(position, marker) != 0 <==> h < Row(forestRows, position)
      decreases forestRows - h
    {
      PowStep(forestRows - h);
      marker := marker / 2;
      h := h + 1;
      RowBits(forestRows, position, h);
      TestBit(position, forestRows - h);
    }
  }

  /** A node is in the forest exactly when the last leaf below it is. */
  lemma {:induction false} LastLeaf(rows: nat, n: nat, p: nat)
    requires Valid(rows, p)
    ensures p >= Pow2(rows) ==>
              Valid(rows, RightChild(rows, p)) && (InForest(rows, n, RightChild(rows, p)) <==> InForest(rows, n, p))
    ensures p < Pow2(rows) ==> (InForest(rows, n, p) <==> p < n)
  {
    hide Pow2, Row, Offset;
    if p >= Pow2(rows) {
      RowChildren(rows, p);
      var r := Row(rows, p);
      assert Shr(n, r) == Shr(n, r - 1) / 2;
    } else {
      LeafRow(rows, p);
      assert Shr(n, 0) == n;
    }
  }

  lemma LeafRow(rows: nat, p: nat)
    requires p < Pow2(rows)
    ensures Valid(rows, p) && Row(rows, p) == 0 && Offset(rows, p) == p
  {
    PowStep(rows + 1);
  }

  /** Go down to the last leaf below. */
  method InForestTest(pos0: nat, numLeaves: nat, forestRows: nat) returns (b: bool)
    requires forestRows <= 62 && numLeaves <= Pow2(forestRows)
    ensures b <==> InForest(forestRows, numLeaves, pos0)
  {
    hide Pow2, And, Or, Row, Shr, Mask, InForest, Shl;
    MaskIs(forestRows);
    PowStep(forestRows + 1);
    InForestValid(forestRows, numLeaves, pos0);
    if pos0 < numLeaves {
      LastLeaf(forestRows, numLeaves, pos0);
      return true;
    }
    var marker, mask := Pow2(forestRows), Mask(forestRows);
    if pos0 >= mask {
      return false;
    }
    var pos: nat := pos0;
    TopTest(forestRows, pos);
    while And(pos, marker) != 0
      invariant Valid(forestRows, pos) && (InForest(forestRows, numLeaves, pos) <==>
                                           InForest(forestRows, numLeaves, pos0))
      invariant And(pos, marker) != 0 <==> pos >= marker
      decreases pos
    {
      LastLeaf(forestRows, numLeaves, pos);
      ChildBits(pos, forestRows);
      pos := Or(And(Shl(pos, 1), mask), 1);
      TopTest(forestRows, pos);
    }
    LastLeaf(forestRows, numLeaves, pos);
    return pos < numLeaves;
  }

  lemma InForestValid(rows: nat, n: nat, p: nat)
    ensures InForest(rows, n, p) ==> Valid(rows, p)
  {
  }

  lemma {:induction false} TopTest(rows: nat, p: nat)
    requires Valid(rows, p)
    ensures And(p, Pow2(rows)) != 0 <==> p >= Pow2(rows)
  {
    hide Pow2, And, Shr;
    TestBit(p, rows);
    if p >= Pow2(rows) {
      TopBit(p, rows);
    } else {
      ShrBelow(p, rows, rows);
      PowZero();
    }
  }

  /** The last position of a row is one before the ancestor of the number of leaves. */
  lemma {:induction false} MaxPositionBits(row: nat, rows: nat, n: nat)
    requires row <= rows
    ensures MaxPositionAtRow(row, rows, n) == (var max := ParentMany(n, row, rows); if max != 0 then max - 1 else 0)
  {
    RiseClosed(n, row, rows);
    if row == 0 { PowStep(rows + 1); }
  }
}
