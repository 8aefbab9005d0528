/** The pollard as a stream of bytes. */
module Serialize {
  // A hash is written as 32 bytes.  How is left unspecified: that the hashes of a pollard can be read back is a
  // hypothesis, stated by name.

  import opened Hashes
  import opened Options
  import opened Positions
  import opened Geometry
  import opened Layouts
  import opened Forests
  import opened Sequential
  import opened Slots
  import opened TreeIndex
  import opened Uniqueness
  import opened Growth
  import opened Pollards
  import opened LeafCounts
  import opened Nieces
  import opened NiecePollard
  import opened PollardUndo
  import opened StumpState
  import opened PollardState

  type Byte = x: nat | x < 256
  type HashBytes = s: seq<Byte> | |s| == 32 witness seq(32, _ => 0)

  const hashBytes: Hash -> HashBytes
  const bytesHash: HashBytes -> Hash

  ghost predicate ReadsBack(h: Hash) {
    bytesHash(hashBytes(h)) == h
  }

  /** A number in little-endian bytes. */
  function LittleEndian(n: nat, k: nat): (r: seq<Byte>)
    ensures |r| == k
    decreases k
  {
    if k == 0 then [] else [n % 256] + LittleEndian(n / 256, k - 1)
  }

  function FromLittleEndian(s: seq<Byte>): nat {
    if |s| == 0 then 0 else s[0] + 256 * FromLittleEndian(s[1..])
  }

  function Power256(k: nat): (r: nat)
    ensures r > 0
  {
    if k == 0 then 1 else 256 * Power256(k - 1)
  }

  /** A number that fits is read back. */
  lemma {:induction false} NumberReadsBack(n: nat, k: nat)
    requires n < Power256(k)
    ensures FromLittleEndian(LittleEndian(n, k)) == n
    decreases k
  {
    if k > 0 {
      NumberReadsBack(n / 256, k - 1);
      assert LittleEndian(n, k)[1..] == LittleEndian(n / 256, k - 1);
    }
  }

  /** The byte that counts 256 to the power of `i`. */
  function ByteOf(n: nat, i: nat): Byte {
    (n / Power256(i)) % 256
  }

  /** The lowest byte comes first. */
  lemma {:induction false} ByteAt(n: nat, k: nat, i: nat)
    requires i < k
    ensures LittleEndian(n, k)[i] == ByteOf(n, i)
    decreases k
  {
    if i > 0 {
      ByteAt(n / 256, k - 1, i - 1);
      NextByte(n, i - 1);
    }
  }

  lemma {:induction false} NextByte(n: nat, i: nat)
    ensures ByteOf(n / 256, i) == ByteOf(n, i + 1)
  {
    hide Power256;
    PowerStep(i);
    DivideTwice(n, Power256(i));
  }

  lemma PowerStep(i: nat)
    ensures Power256(i + 1) == 256 * Power256(i)
  {
  }

  lemma DivideTwice(n: nat, p: nat)
    requires p > 0
    ensures (n / 256) / p == n / (256 * p)
  {
    var a := n / 256;
    var q, r := a / p, a % p;
    Divided(a, p);
    assert a == p * q + r;
    assert n == 256 * (p * q) + (256 * r + n % 256);
    assert 256 * (p * q) == (256 * p) * q;
    Quotient(n, 256 * p, q, 256 * r + n % 256);
  }

  lemma Divided(a: nat, p: nat)
    requires p > 0
    ensures a == p * (a / p) + a % p && 0 <= a % p < p
  {
  }

  lemma Quotient(a: nat, p: nat, q: nat, r: nat)
    requires p > 0 && a == p * q + r && r < p
    ensures a / p == q
  {
    Divided(a, p);
    OneQuotient(p, q, r, a / p, a % p);
  }

  lemma OneQuotient(p: nat, q: nat, r: nat, d: nat, s: nat)
    requires p * q + r == p * d + s && r < p && s < p
    ensures q == d
  {
    if d < q {
      Farther(p, d, q);
    } else if q < d {
      Farther(p, q, d);
    }
  }

  lemma Farther(p: nat, a: nat, b: nat)
    requires a < b
    ensures p * b >= p * a + p
  {
    assert p * b == p * (a + 1) + p * (b - (a + 1));
  }

  /** What the first bytes of a stream count for, the first byte least. */
  ghost function ByteSum(s: seq<Byte>, k: nat): nat
    requires k <= |s|
  {
    if k == 0 then 0 else ByteSum(s, k - 1) + s[k - 1] * Power256(k - 1)
  }

  lemma {:induction false} SumFirst(s: seq<Byte>, k: nat)
    requires 0 < k <= |s|
    ensures ByteSum(s, k) == s[0] + 256 * ByteSum(s[1..], k - 1)
    decreases k
  {
    if k > 1 {
      SumFirst(s, k - 1);
      assert s[1..][k - 2] == s[k - 1];
      assert s[k - 1] * (256 * Power256(k - 2)) == 256 * (s[k - 1] * Power256(k - 2));
    }
  }

  lemma {:induction false} SumOfBytes(s: seq<Byte>)
    ensures FromLittleEndian(s) == ByteSum(s, |s|)
    decreases |s|
  {
    if |s| > 0 {
      SumOfBytes(s[1..]);
      SumFirst(s, |s|);
    }
  }

  /** Missing bytes count for nothing. */
  lemma {:induction false} SumPadded(s: seq<Byte>, t: seq<Byte>, k: nat)
    requires |s| <= k <= |t| && t[..|s|] == s && forall i :: |s| <= i < |t| ==> t[i] == 0
    ensures ByteSum(t, k) == ByteSum(s, |s|)
    decreases k
  {
    if k > |s| {
      SumPadded(s, t, k - 1);
    } else {
      SumPrefix(s, t, k);
    }
  }

  lemma {:induction false} SumPrefix(s: seq<Byte>, t: seq<Byte>, k: nat)
    requires k <= |s| && k <= |t| && forall i :: 0 <= i < k ==> s[i] == t[i]
    ensures ByteSum(s, k) == ByteSum(t, k)
    decreases k
  {
    if k > 0 { SumPrefix(s, t, k - 1); }
  }

  /** A number that is read is the sum of its bytes. */
  lemma {:induction false} NumberIsSum(s: seq<Byte>)
    ensures ReadNumber(s) == ByteSum(s, if |s| < 8 then |s| else 8)
  {
    hide ByteSum, FromLittleEndian;
    if |s| < 8 {
      var t := s + seq(8 - |s|, _ => 0);
      SumOfBytes(t);
      SumPadded(s, t, 8);
    } else {
      SumOfBytes(s[..8]);
      SumPrefix(s[..8], s, 8);
    }
  }

  /** The number of nodes. */
  function GetCount(n: PolNode): nat {
    if n.NoNode? then 0 else GetCount(n.lNiece) + 1 + GetCount(n.rNiece)
  }

  /** A node and what it holds.  `holder` is the node with its children: its sibling, or itself when it is a root. */
  function WriteOne(n: PolNode, holder: PolNode): seq<Byte>
    decreases n
  {
    if n.NoNode? then []
    else
      hashBytes(n.data) + [if DeadEnd(holder) then 1 else 0] +
      if n.lNiece.Pol? && n.rNiece.Pol? then [1] + WriteOne(n.lNiece, n.rNiece) + WriteOne(n.rNiece, n.lNiece)
      else [0]
  }

  lemma {:induction false} WrittenSize(n: PolNode, holder: PolNode)
    requires Whole(n)
    ensures |WriteOne(n, holder)| == 34 * GetCount(n)
    decreases n
  {
    if n.Pol? {
      WrittenSize(n.lNiece, n.rNiece);
      WrittenSize(n.rNiece, n.lNiece);
    }
  }

  /** What was read: a node, the leaves on the way, and what is left of the stream. */
  datatype Reading = Broken | Read(node: PolNode, leaves: set<Hash>, rest: seq<Byte>)

  function Padded(s: seq<Byte>): HashBytes
    requires |s| <= 32
  {
    s + seq(32 - |s|, _ => 0)
  }

  /** Read a node and what it holds.  At the end of the stream there is an empty node. */
  function ReadOne(s: seq<Byte>): (r: Reading)
    ensures r.Read? ==> |r.rest| <= |s|
    decreases |s|
  {
    if |s| == 0 then Read(Pol(Empty, NoNode, NoNode, false), {}, s)
    else
      var k := if |s| < 32 then |s| else 32;
      var data, s1 := bytesHash(Padded(s[..k])), s[k..];
      if |s1| < 2 then Broken
      else
        var leaves := if s1[0] == 1 && data != Empty then {data} else {};
        if s1[1] == 1 then
          match ReadOne(s1[2..])
          case Broken => Broken
          case Read(l, inL, s2) =>
            match ReadOne(s2)
            case Broken => Broken
            case Read(r, inR, s3) => Read(Pol(data, l, r, false), leaves + inL + inR, s3)
        else Read(Pol(data, NoNode, NoNode, false), leaves, s1[2..])
  }

  /** Whatever is read is a node in which nieces come in pairs, without flags, and the empty hash is no leaf. */
  lemma {:induction false} ReadFacts(s: seq<Byte>)
    ensures ReadOne(s).Read? ==>
              var n := ReadOne(s).node; n.Pol? && Whole(n) && Stripped(n) == n && Empty !in ReadOne(s).leaves
    decreases |s|
  {
    if |s| >= 34 {
      assert s[32..][2..] == s[34..];
      ReadFacts(s[34..]);
      if ReadOne(s[34..]).Read? { ReadFacts(ReadOne(s[34..]).rest); }
    }
  }

  /** The leaves that are marked when a node is written. */
  ghost function Marked(n: PolNode, holder: PolNode): set<Hash>
    decreases n
  {
    if n.NoNode? then {}
    else (if DeadEnd(holder) && n.data != Empty then {n.data} else {}) + Marked(n.lNiece, n.rNiece) + Marked(n.rNiece,
        n.lNiece)
  }

  /** All the hashes of a node can be read back. */
  ghost predicate AllReadBack(n: PolNode) {
    n.Pol? ==> ReadsBack(n.data) && AllReadBack(n.lNiece) && AllReadBack(n.rNiece)
  }

  lemma {:induction false} WrittenParts(n: PolNode, holder: PolNode, rest: seq<Byte>)
    requires n.Pol? && Whole(n)
    ensures var s := WriteOne(n, holder) + rest;
            && |s| >= 34 && s[..32] == hashBytes(n.data) && s[32] == (if DeadEnd(holder) then 1 else 0)
            && s[33] == (if n.lNiece.Pol? then 1 else 0)
            && s[34..] == (if n.lNiece.Pol? then WriteOne(n.lNiece, n.rNiece) + (WriteOne(n.rNiece, n.lNiece) + rest)
                           else rest)
  {
    hide Whole;
    NiecesPaired(n);
    var body := if n.lNiece.Pol? then [1] + WriteOne(n.lNiece, n.rNiece) + WriteOne(n.rNiece, n.lNiece) else [0];
    var mark: Byte := if DeadEnd(holder) then 1 else 0;
    assert WriteOne(n, holder) == hashBytes(n.data) + [mark] + body;
  }

  lemma NiecesPaired(n: PolNode)
    requires n.Pol? && Whole(n)
    ensures n.lNiece.Pol? <==> n.rNiece.Pol?
    ensures Whole(n.lNiece) && Whole(n.rNiece)
  {
  }

  lemma {:induction false} ReadParts(s: seq<Byte>)
    requires |s| >= 34
    ensures var data, left := bytesHash(s[..32]), ReadOne(s[34..]);
            var leaves := if s[32] == 1 && data != Empty then {data} else {};
            && (s[33] != 1 ==> ReadOne(s) == Read(Pol(data, NoNode, NoNode, false), leaves, s[34..]))
            && (s[33] == 1 && left.Read? && ReadOne(left.rest).Read? ==>
                  var right := ReadOne(left.rest);
                  ReadOne(s) == Read(Pol(data, left.node, right.node, false), leaves + left.leaves + right.leaves,
                                     right.rest))
  {
    assert Padded(s[..32]) == s[..32];
    assert s[32..][2..] == s[34..] && s[32..][0] == s[32] && s[32..][1] == s[33];
  }

  /** What was written is read, but for the flags. */
  lemma {:induction false} OneReadsBack(n: PolNode, holder: PolNode, rest: seq<Byte>)
    requires n.Pol? && Whole(n) && AllReadBack(n)
    ensures ReadOne(WriteOne(n, holder) + rest) == Read(Stripped(n), Marked(n, holder), rest)
    decreases n
  {
    hide WriteOne, ReadOne;
    var s := WriteOne(n, holder) + rest;
    WrittenParts(n, holder, rest);
    ReadParts(s);
    NiecesPaired(n);
    if n.lNiece.Pol? {
      OneReadsBack(n.lNiece, n.rNiece, WriteOne(n.rNiece, n.lNiece) + rest);
      OneReadsBack(n.rNiece, n.lNiece, rest);
    }
  }

  /** The hash of a leaf. */
  ghost function OwnLeaf(t: Tree): set<Hash> {
    if t.Leaf? then {t.hash} else {}
  }

  ghost function LeavesBelow(t: Tree): set<Hash> {
    if t.Node? then LeafSet(t) else {}
  }

  lemma {:induction false} MarkedLeaves(n: PolNode, holder: PolNode, t: Tree, s: Tree)
    requires Holds(n, t, s) && Kids(holder, t) && LeavesOk(t) && LeavesOk(s)
    ensures Marked(n, holder) == OwnLeaf(t) + LeavesBelow(s)
    decreases s
  {
    hide Holds, Kids;
    MerkleEmpty(t);
    MarkedSelf(holder, t);
    HoldsKids(n, t, s);
    if s.Node? {
      KidsAt(n, s, 0);
      KidsAt(n, s, 1);
      HoldsKids(n.lNiece, s.left, s.right);
      HoldsKids(n.rNiece, s.right, s.left);
      MarkedLeaves(n.lNiece, n.rNiece, s.left, s.right);
      MarkedLeaves(n.rNiece, n.lNiece, s.right, s.left);
      LeavesSplit(s.left);
      LeavesSplit(s.right);
    } else {
      NoKids(n, s);
    }
  }

  lemma LeavesSplit(t: Tree)
    ensures OwnLeaf(t) + LeavesBelow(t) == LeafSet(t)
  {
  }

  lemma MarkedSelf(holder: PolNode, t: Tree)
    requires Kids(holder, t)
    ensures DeadEnd(holder) <==> !t.Node?
  {
  }

  /** The leaves marked below a root are those of its tree. */
  lemma {:induction false} MarkedRoot(n: PolNode, t: Tree)
    requires IsRootNode(n, t) && LeavesOk(t)
    ensures Marked(n, n) == LeafSet(t)
  {
    hide Kids;
    MarkedLeaves(n, n, t, t);
    LeavesSplit(t);
  }

  /** The roots, one after another. */
  function WriteRoots(roots: seq<PolNode>): seq<Byte> {
    if |roots| == 0 then [] else WriteRoots(roots[..|roots| - 1]) + WriteOne(roots[|roots| - 1], roots[|roots| - 1])
  }

  function TotalCount(roots: seq<PolNode>): nat {
    if |roots| == 0 then 0 else TotalCount(roots[..|roots| - 1]) + GetCount(roots[|roots| - 1])
  }

  /** The leaves marked in all the trees. */
  ghost function MarkedAll(roots: seq<PolNode>): set<Hash> {
    if |roots| == 0 then {} else MarkedAll(roots[..|roots| - 1]) + Marked(roots[|roots| - 1], roots[|roots| - 1])
  }

  /** The counters and the roots. */
  function Saved(numLeaves: nat, numDels: nat, roots: seq<PolNode>): seq<Byte> {
    LittleEndian(numLeaves, 8) + LittleEndian(numDels, 8) + WriteRoots(roots)
  }

  /** What a stream stands for. */
  datatype Restoring = Refused | Restored(numLeaves: nat, numDels: nat, roots: seq<PolNode>, nodeMap: set<Hash>,
                                          rest: seq<Byte>)

  /** Read the counter at the front of a stream, which is not at its end. */
  function ReadNumber(s: seq<Byte>): nat {
    FromLittleEndian(if |s| < 8 then s + seq(8 - |s|, _ => 0) else s[..8])
  }

  function AfterNumber(s: seq<Byte>): (r: seq<Byte>)
    ensures |r| <= |s|
  {
    if |s| < 8 then [] else s[8..]
  }

  /** Read `k` more roots. */
  function ReadRoots(s: seq<Byte>, k: nat, numLeaves: nat, numDels: nat, roots: seq<PolNode>, nodeMap: set<Hash>)
    : Restoring
    decreases k
  {
    if k == 0 then Restored(numLeaves, numDels, roots, nodeMap, s)
    else
      match ReadOne(s)
      case Broken => Refused
      case Read(node, leaves, rest) => ReadRoots(rest, k - 1, numLeaves, numDels, roots + [node], nodeMap + leaves)
  }

  function Restore(s: seq<Byte>): Restoring {
    if |s| == 0 || |AfterNumber(s)| == 0 then Refused
    else
      var numLeaves, s1 := ReadNumber(s), AfterNumber(s);
      var r := ReadRoots(AfterNumber(s1), NumRoots(numLeaves), numLeaves, ReadNumber(s1), [], {});
      if r.Refused? || |r.nodeMap| != numLeaves - r.numDels then Refused else r
  }

  lemma ReadRootsStep(s: seq<Byte>, k: nat, numLeaves: nat, numDels: nat, roots: seq<PolNode>, nodeMap: set<Hash>)
    requires k > 0
    ensures ReadRoots(s, k, numLeaves, numDels, roots, nodeMap) ==
            match ReadOne(s)
            case Broken => Refused
            case Read(node, leaves, rest) => ReadRoots(rest, k - 1, numLeaves, numDels, roots + [node],
                                                       nodeMap + leaves)
    ensures ReadOne(s).Read? ==> |ReadOne(s).rest| <= |s|
  {
    hide ReadOne;
  }

  lemma ReadRootsEnd(s: seq<Byte>, numLeaves: nat, numDels: nat, roots: seq<PolNode>, nodeMap: set<Hash>)
    ensures ReadRoots(s, 0, numLeaves, numDels, roots, nodeMap) == Restored(numLeaves, numDels, roots, nodeMap, s)
  {
  }

  lemma SameTail(a: seq<Byte>, b: seq<Byte>, c: seq<Byte>)
    requires a + b == a + c
    ensures b == c
  {
    assert (a + b)[|a|..] == b && (a + c)[|a|..] == c;
  }

  /** What is written after a root. */
  lemma {:induction false} RestAfter(roots: seq<PolNode>, i: nat) returns (tail: seq<Byte>)
    requires i < |roots|
    ensures WriteRoots(roots) == WriteRoots(roots[..i + 1]) + tail
    decreases |roots|
  {
    hide WriteOne;
    if i == |roots| - 1 {
      assert roots[..i + 1] == roots;
      tail := [];
    } else {
      tail := RestAfter(roots[..|roots| - 1], i);
      assert roots[..|roots| - 1][..i + 1] == roots[..i + 1];
      tail := tail + WriteOne(roots[|roots| - 1], roots[|roots| - 1]);
    }
  }

  /** The roots are read one after another. */
  lemma {:induction false} RootsReadBack(roots: seq<PolNode>, i: nat, rest: seq<Byte>, numLeaves: nat, numDels: nat)
    requires i <= |roots| && WriteRoots(roots[..i]) + rest == WriteRoots(roots)
    requires forall j :: 0 <= j < |roots| ==> roots[j].Pol? && Whole(roots[j]) && AllReadBack(roots[j])
    ensures ReadRoots(rest, |roots| - i, numLeaves, numDels, StrippedAll(roots[..i]), MarkedAll(roots[..i])) ==
            Restored(numLeaves, numDels, StrippedAll(roots), MarkedAll(roots), [])
    decreases |roots| - i
  {
    hide ReadOne, WriteOne, Whole, AllReadBack, Stripped, Marked;
    if i == |roots| {
      assert roots[..i] == roots;
      SameTail(WriteRoots(roots), rest, []);
    } else {
      var tail := RestAfter(roots, i);
      assert roots[..i + 1][..i] == roots[..i];
      var one := WriteOne(roots[i], roots[i]);
      assert WriteRoots(roots[..i + 1]) == WriteRoots(roots[..i]) + one;
      assert WriteRoots(roots[..i]) + rest == WriteRoots(roots[..i]) + (one + tail);
      SameTail(WriteRoots(roots[..i]), rest, one + tail);
      OneReadsBack(roots[i], roots[i], tail);
      assert StrippedAll(roots[..i + 1]) == StrippedAll(roots[..i]) + [Stripped(roots[i])];
      RootsReadBack(roots, i + 1, tail, numLeaves, numDels);
    }
  }

  lemma {:induction false} CountersReadBack(numLeaves: nat, numDels: nat, rest: seq<Byte>)
    requires numLeaves < Power256(8) && numDels < Power256(8)
    ensures var s := LittleEndian(numLeaves, 8) + LittleEndian(numDels, 8) + rest;
            && |s| >= 16 && ReadNumber(s) == numLeaves && |AfterNumber(s)| > 0 && ReadNumber(AfterNumber(s)) == numDels
            && AfterNumber(AfterNumber(s)) == rest
  {
    hide LittleEndian, FromLittleEndian, Power256;
    var a, b := LittleEndian(numLeaves, 8), LittleEndian(numDels, 8);
    var s := a + b + rest;
    assert s[..8] == a && s[8..] == b + rest && (b + rest)[..8] == b && (b + rest)[8..] == rest;
    NumberReadsBack(numLeaves, 8);
    NumberReadsBack(numDels, 8);
  }

  /** The leaves of all the trees are those of the slots. */
  lemma {:induction false} MarkedSlots(g: Layout, slots: seq<Hash>, roots: seq<PolNode>)
    requires LayoutFor(g, TreeRows(|slots|), |slots|) && Grove(roots, RootTrees(slots, 0))
    ensures MarkedAll(roots) == LeafKeys(slots)
  {
    hide LayoutFor, RootTrees, TreeRows, Marked, IsRootNode, Collapse, LeafSet, LeavesOk, MarkedAll, LeafKeys, RootList,
         Layout.WellShaped, Layout.IsRoot;
    var rows, trees := TreeRows(|slots|), RootTrees(slots, 0);
    var list := RootList(|slots|, rows, 0);
    LayoutFits(g, rows, |slots|);
    RootTreesAt(g, rows, slots, 0);
    forall k | 0 <= k < |trees|
      ensures Marked(roots[k], roots[k]) == LeafSet(trees[k])
    {
      RootPlaces(g, |slots|, k);
      RootLeavesOk(g, slots, list[k]);
      MarkedRoot(roots[k], trees[k]);
    }
    forall h
      ensures h in MarkedAll(roots) <==> h in LeafKeys(slots)
    {
      MarkedWhere(roots, h);
      if h in MarkedAll(roots) {
        var k :| 0 <= k < |roots| && h in Marked(roots[k], roots[k]);
        RootPlaces(g, |slots|, k);
        RootNode(g, list[k]);
        CollapseLeaves(g, slots, list[k], h);
        SlotKey(g, slots, list[k], h);
      }
      if h in LeafKeys(slots) {
        var k := LeafInRoot(g, slots, h);
        assert h in Marked(roots[k], roots[k]);
      }
    }
  }

  lemma {:induction false} MarkedWhere(roots: seq<PolNode>, h: Hash)
    ensures h in MarkedAll(roots) <==> exists k :: 0 <= k < |roots| && h in Marked(roots[k], roots[k])
  {
    hide Marked;
    if |roots| > 0 {
      var rest := roots[..|roots| - 1];
      MarkedWhere(rest, h);
      if h in MarkedAll(rest) {
        var k :| 0 <= k < |rest| && h in Marked(rest[k], rest[k]);
        assert h in Marked(roots[k], roots[k]);
      }
      if exists k :: 0 <= k < |roots| && h in Marked(roots[k], roots[k]) {
        var k :| 0 <= k < |roots| && h in Marked(roots[k], roots[k]);
        if k < |rest| { assert h in Marked(rest[k], rest[k]); }
      }
    }
  }

  lemma {:induction false} SlotKey(g: Layout, slots: seq<Hash>, p: nat, h: Hash)
    requires exists i: nat :: SlotBelow(g, slots, p, h, i)
    ensures h in LeafKeys(slots)
  {
    hide Above;
    var i: nat :| SlotBelow(g, slots, p, h, i);
    assert slots[i] == h;
  }

  lemma {:induction false} LeafInRoot(g: Layout, slots: seq<Hash>, h: Hash) returns (k: nat)
    requires LayoutFor(g, TreeRows(|slots|), |slots|) && h in LeafKeys(slots)
    ensures k < |RootList(|slots|, TreeRows(|slots|), 0)| &&
            h in LeafSet(Collapse(g, slots, RootList(|slots|, TreeRows(|slots|), 0)[k]))
  {
    hide LayoutFor, TreeRows, Collapse, LeafSet, RootList, Layout.WellShaped, Layout.IsRoot, RootOf, Above, Row,
         BiggerTrees;
    var rows := TreeRows(|slots|);
    LayoutFits(g, rows, |slots|);
    var i :| 0 <= i < |slots| && slots[i] == h;
    LeafNode(g, rows, |slots|, i);
    RootOfFacts(g, i);
    RootNode(g, RootOf(g, i));
    SlotInTree(g, slots, RootOf(g, i), i);
    RootAtIndex(g, |slots|, i);
    k := BiggerTrees(|slots|, Row(rows, RootOf(g, i)), rows);
  }

  /** What was written is restored: the same nodes, with their hashes and nieces, the same leaves and the same counters;
      and nothing is left of the stream.  The flags are not written. */
  lemma {:induction false} RoundTrip(slots: seq<Hash>, roots: seq<PolNode>)
    requires GoodSlots(slots) && Grove(roots, RootTrees(slots, 0)) && |slots| < Power256(8)
    requires forall i :: 0 <= i < |roots| ==> AllReadBack(roots[i])
    ensures Restore(Saved(|slots|, Vacant(slots), roots)) ==
            Restored(|slots|, Vacant(slots), StrippedAll(roots), LeafKeys(slots), [])
  {
    hide GoodSlots, RootTrees, AllReadBack, Power256, LittleEndian, ReadRoots, ReadNumber, AfterNumber, WriteRoots,
         NumRoots, StrippedAll, MarkedAll, LeafKeys, Vacant, Whole, IsRootNode, TreeRows, LayoutFor;
    var g := ShapeOf(|slots|);
    Shapes(|slots|, 0);
    LeavesAndVacant(slots);
    CountersReadBack(|slots|, Vacant(slots), WriteRoots(roots));
    RootCount(slots, 0);
    ShrNone(|slots|);
    forall i | 0 <= i < |roots|
      ensures roots[i].Pol? && Whole(roots[i])
    {
      RootWhole(roots[i], RootTrees(slots, 0)[i]);
    }
    NothingWritten(roots);
    RootsReadBack(roots, 0, WriteRoots(roots), |slots|, Vacant(slots));
    MarkedSlots(g, slots, roots);
  }

  lemma NothingWritten(roots: seq<PolNode>)
    ensures WriteRoots(roots[..0]) + WriteRoots(roots) == WriteRoots(roots)
    ensures StrippedAll(roots[..0]) == [] && MarkedAll(roots[..0]) == {}
  {
    assert WriteRoots(roots[..0]) == [];
  }

  lemma {:induction false} StrippedGrove(roots: seq<PolNode>, trees: seq<Tree>)
    requires Grove(roots, trees)
    ensures Grove(StrippedAll(roots), trees)
  {
    hide Holds, Stripped;
    forall i | 0 <= i < |trees|
      ensures IsRootNode(Stripped(roots[i]), trees[i])
    {
      StrippedHolds(roots[i], trees[i], trees[i]);
    }
  }

  lemma {:induction false} StrippedHolds(n: PolNode, t: Tree, s: Tree)
    requires Holds(n, t, s)
    ensures Holds(Stripped(n), t, s)
    decreases s
  {
    if s.Node? {
      StrippedHolds(n.lNiece, s.left, s.right);
      StrippedHolds(n.rNiece, s.right, s.left);
    }
  }

  /** A node as it is written, with the node that holds its children. */
  datatype Record = Record(node: PolNode, holder: PolNode)

  /** All nodes below a node, each before its nieces, and the left niece first. */
  ghost function Preorder(n: PolNode, holder: PolNode): (r: seq<Record>)
    ensures |r| == GetCount(n) && forall j :: 0 <= j < |r| ==> r[j].node.Pol?
    decreases n
  {
    if n.NoNode? then [] else [Record(n, holder)] + Preorder(n.lNiece, n.rNiece) + Preorder(n.rNiece, n.lNiece)
  }

  /** 32 bytes of the hash, a byte that is 1 when the node has no children, and one that is 1 when it has nieces. */
  ghost predicate IsRecord(s: seq<Byte>, i: nat, r: Record)
    requires r.node.Pol?
  {
    && i + 34 <= |s| && s[i..i + 32] == hashBytes(r.node.data)
    && s[i + 32] == (if DeadEnd(r.holder) then 1 else 0) && s[i + 33] == (if r.node.lNiece.Pol? then 1 else 0)
  }

  ghost predicate Recorded(s: seq<Byte>, at: nat, list: seq<Record>)
    requires forall j :: 0 <= j < |list| ==> list[j].node.Pol?
  {
    forall j :: 0 <= j < |list| ==> IsRecord(s, at + 34 * j, list[j])
  }

  lemma RecordedBoth(s: seq<Byte>, at: nat, a: seq<Record>, b: seq<Record>)
    requires (forall j :: 0 <= j < |a| ==> a[j].node.Pol?) && forall j :: 0 <= j < |b| ==> b[j].node.Pol?
    requires Recorded(s, at, a) && Recorded(s, at + 34 * |a|, b)
    ensures Recorded(s, at, a + b)
  {
    hide IsRecord;
    forall j | 0 <= j < |a + b|
      ensures IsRecord(s, at + 34 * j, (a + b)[j])
    {
      if j >= |a| { assert IsRecord(s, at + 34 * |a| + 34 * (j - |a|), b[j - |a|]); }
    }
  }

  /** The bytes of a node are the records of all nodes below it. */
  lemma {:induction false} NodeRecords(s: seq<Byte>, at: nat, n: PolNode, holder: PolNode)
    requires Whole(n) && at + |WriteOne(n, holder)| <= |s| && s[at..at + |WriteOne(n, holder)|] == WriteOne(n, holder)
    ensures Recorded(s, at, Preorder(n, holder))
    decreases n
  {
    hide WriteOne, IsRecord, Recorded, Whole, GetCount;
    if n.NoNode? {
      NoRecords(s, at);
    } else {
      NiecesPaired(n);
      var l, r := Preorder(n.lNiece, n.rNiece), Preorder(n.rNiece, n.lNiece);
      FirstRecord(s, at, n, holder);
      if n.lNiece.Pol? {
        RecordSlices(s, at, n, holder);
        NodeRecords(s, at + 34, n.lNiece, n.rNiece);
        NodeRecords(s, at + 34 + 34 * |l|, n.rNiece, n.lNiece);
        RecordedBoth(s, at + 34, l, r);
      } else {
        assert l == [] && r == [] && l + r == [];
        NoRecords(s, at + 34);
      }
      RecordedBoth(s, at, [Record(n, holder)], l + r);
      assert [Record(n, holder)] + (l + r) == Preorder(n, holder);
    }
  }

  lemma NoRecords(s: seq<Byte>, at: nat)
    ensures Recorded(s, at, [])
  {
  }

  lemma {:induction false} FirstRecord(s: seq<Byte>, at: nat, n: PolNode, holder: PolNode)
    requires n.Pol? && Whole(n) && at + |WriteOne(n, holder)| <= |s|
    requires s[at..at + |WriteOne(n, holder)|] == WriteOne(n, holder)
    ensures Recorded(s, at, [Record(n, holder)])
  {
    hide WriteOne, Whole, DeadEnd;
    var w := WriteOne(n, holder);
    WrittenParts(n, holder, []);
    assert w + [] == w;
    assert s[at..at + |w|][..32] == s[at..at + 32] && s[at..at + |w|][32] == s[at + 32];
    assert s[at..at + |w|][33] == s[at + 33];
  }

  lemma {:induction false} RecordSlices(s: seq<Byte>, at: nat, n: PolNode, holder: PolNode)
    requires n.Pol? && Whole(n) && n.lNiece.Pol? && at + |WriteOne(n, holder)| <= |s|
    requires s[at..at + |WriteOne(n, holder)|] == WriteOne(n, holder)
    ensures var l, r := WriteOne(n.lNiece, n.rNiece), WriteOne(n.rNiece, n.lNiece);
            && |l| == 34 * GetCount(n.lNiece) && at + 34 + |l| + |r| <= |s|
            && s[at + 34..at + 34 + |l|] == l && s[at + 34 + |l|..at + 34 + |l| + |r|] == r
  {
    hide WriteOne, Whole, GetCount;
    var w, l, r := WriteOne(n, holder), WriteOne(n.lNiece, n.rNiece), WriteOne(n.rNiece, n.lNiece);
    WrittenParts(n, holder, []);
    assert w + [] == w && r + [] == r;
    NiecesPaired(n);
    WrittenSize(n.lNiece, n.rNiece);
    assert w[34..] == l + r;
    assert s[at..at + |w|][34..] == s[at + 34..at + |w|];
    var t := s[at + 34..at + |w|];
    assert t == l + r;
    assert t[..|l|] == s[at + 34..at + 34 + |l|] && t[|l|..] == s[at + 34 + |l|..at + 34 + |l| + |r|];
  }

  /** The records of all roots, one after another. */
  ghost function AllRecords(roots: seq<PolNode>): (r: seq<Record>)
    ensures |r| == TotalCount(roots) && forall j :: 0 <= j < |r| ==> r[j].node.Pol?
  {
    if |roots| == 0 then []
    else AllRecords(roots[..|roots| - 1]) + Preorder(roots[|roots| - 1], roots[|roots| - 1])
  }

  lemma {:induction false} RootRecords(s: seq<Byte>, at: nat, roots: seq<PolNode>)
    requires (forall i :: 0 <= i < |roots| ==> Whole(roots[i])) && at + |WriteRoots(roots)| <= |s|
    requires s[at..at + |WriteRoots(roots)|] == WriteRoots(roots)
    ensures |WriteRoots(roots)| == 34 * TotalCount(roots) && Recorded(s, at, AllRecords(roots))
    decreases |roots|
  {
    hide WriteOne, Whole, Recorded, GetCount, Preorder;
    if |roots| == 0 {
      NoRecords(s, at);
    } else {
      var front, last := roots[..|roots| - 1], roots[|roots| - 1];
      var a, b, w := WriteRoots(front), WriteOne(last, last), WriteRoots(roots);
      assert w == a + b;
      assert s[at..at + |w|][..|a|] == a && s[at..at + |w|][|a|..] == b;
      assert s[at..at + |w|][..|a|] == s[at..at + |a|] && s[at..at + |w|][|a|..] == s[at + |a|..at + |a| + |b|];
      RootRecords(s, at, front);
      WrittenSize(last, last);
      NodeRecords(s, at + |a|, last, last);
      RecordedBoth(s, at, AllRecords(front), Preorder(last, last));
    }
  }
}
