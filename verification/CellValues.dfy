/** What moving pointers does to the nodes that the cells stand for. */
module CellValues {
  import opened Hashes
  import opened TreeIndex
  import opened Nieces
  import opened NieceEdits
  import opened NieceNavigation
  import opened CellHashes
  import opened CellEdits

  /** The digits, from the front. */
  lemma {:induction false} TurnsFirst(bits: int, h: nat, k: nat)
    requires h < k
    ensures TurnsOf(bits, h, k) == [Digit(bits, k - 1)] + TurnsOf(bits, h, k - 1)
    decreases k - h
  {
    if h + 1 < k { TurnsFirst(bits, h + 1, k); }
  }

  /** The node after the sibling of a deleted node moved up. */
  function MovedValue(x: PolNode, t1: int, t0: int): PolNode {
    var a, b := Niece(x, t1), Niece(x, 1 - t1);
    var n, s := Niece(a, t0), Niece(a, 1 - t0);
    var a', b' := WithNieces(a, Niece(s, 0), Niece(s, 1)), WithNieces(n, Niece(b, 0), Niece(b, 1));
    if t1 % 2 == 0 then WithNieces(x, a', b') else WithNieces(x, b', a')
  }

  /** Moving nodes and hashing up to the root is the edit that deletes. */
  lemma {:induction false} DeletedByMoves(v: PolNode, remember: bool, bits: int, k: nat, turns: seq<int>)
    requires k >= 2 && turns == TurnsOf(bits, 0, k)
    requires var x := Follow(v, turns[..k - 2]);
             Niece(x, 1 - turns[k - 2]).Pol? && Niece(Niece(x, turns[k - 2]), turns[k - 1]).Pol?
    ensures var w := turns[..k - 2];
            var e := Rehash(PlugValue(v, w, MovedValue(Follow(v, w), turns[k - 2], turns[k - 1])), w);
            DeleteBelow(v, remember, bits, k) == Edited(e.l, e.r, e.data, remember)
    decreases k
  {
    hide Follow, Digit, DeleteBelow, Rehash;
    TurnsFirst(bits, 0, k);
    TurnsFirst(bits, 0, k - 1);
    var w, d := turns[..k - 2], Digit(bits, k - 1);
    DeleteParts(v, remember, bits, k);
    if k == 2 {
      assert w == [];
      FollowNone(v);
      assert turns == [d, Digit(bits, 0)];
      DeleteParts(Niece(v, d), RememberOf(Niece(v, 1 - d)), bits, 1);
      RehashParts(MovedValue(v, d, Digit(bits, 0)), w);
      MovedTwice(v, remember, d, Digit(bits, 0));
    } else {
      var n, s, rest := Niece(v, d), Niece(v, 1 - d), TurnsOf(bits, 0, k - 1);
      var w' := rest[..k - 3];
      assert turns == [d] + rest && w == [d] + w' && w[1..] == w' && w[0] == d;
      FollowFirst(v, d, w');
      assert turns[k - 2] == rest[k - 3] && turns[k - 1] == rest[k - 2];
      DeletedByMoves(n, RememberOf(s), bits, k - 1, rest);
      var m := MovedValue(Follow(n, w'), turns[k - 2], turns[k - 1]);
      FollowedPol(v, w, turns[k - 2]);
      FollowedPol(n, w', turns[k - 2]);
      FollowNone(n);
      assert |w'| == 0 ==> w' == [];
      PlugTop(n, w', m);
      PlugFurther(v, w, m, remember, w');
    }
  }

  /** Replacing a part does not change the hash and the flag of a node. */
  lemma PlugTop(n: PolNode, w: seq<int>, m: PolNode)
    requires n.Pol? && (|w| == 0 ==> m.Pol? && m.data == n.data && m.remember == n.remember)
    ensures var p := PlugValue(n, w, m); p.Pol? && p.data == n.data && p.remember == n.remember
  {
  }

  lemma FollowedPol(v: PolNode, w: seq<int>, turn: int)
    requires Niece(Follow(v, w), turn).Pol? || Niece(Follow(v, w), 1 - turn).Pol?
    ensures v.Pol?
  {
    hide Follow;
    if v.NoNode? { FollowNothing(w); }
  }

  lemma DeleteParts(x: PolNode, remember: bool, bits: int, h: nat)
    requires h > 0
    ensures var turn := Digit(bits, h - 1);
            var n, s := Niece(x, turn), Niece(x, 1 - turn);
            && (h == 1 ==>
                  DeleteBelow(x, remember, bits, h) == Edited(Niece(s, 0), Niece(s, 1), DataOf(n), RememberOf(n)))
            && (h > 1 ==>
                  var below := DeleteBelow(n, RememberOf(s), bits, h - 1);
                  DeleteBelow(x, remember, bits, h) ==
                  PlacedOn(turn, WithNieces(n, below.l, below.r), WithData(s, below.data, below.remember), remember))
  {
    hide Digit;
  }

  lemma MovedTwice(v: PolNode, remember: bool, t1: int, t0: int)
    requires Niece(v, 1 - t1).Pol? && Niece(Niece(v, t1), t0).Pol?
    ensures var a, b, m := Niece(v, t1), Niece(v, 1 - t1), MovedValue(v, t1, t0);
            var n, s := Niece(a, t0), Niece(a, 1 - t0);
            PlacedOn(t1, WithNieces(a, Niece(s, 0), Niece(s, 1)), WithData(b, DataOf(n), RememberOf(n)), remember) ==
            Edited(Niece(m, 0), Niece(m, 1), ParentHash(DataOf(Niece(m, 0)), DataOf(Niece(m, 1))), remember)
  {
  }

  /** The node after a deletion below it was undone. */
  function PutValue(x: PolNode, t: int, node: PolNode, side: int, data: Hash, full: bool): PolNode {
    var n, s := Niece(x, t), Niece(x, 1 - t);
    var node', n' := WithNieces(node, Niece(s, 0), Niece(s, 1)), WithNieces(n, Niece(node, 0), Niece(node, 1));
    var p := Pol(data, Niece(n, 0), Niece(n, 1), full);
    var s' := if side % 2 == 0 then WithNieces(s, node', n') else WithNieces(s, n', node');
    if t % 2 == 0 then WithNieces(x, p, s') else WithNieces(x, s', p)
  }

  lemma InsertParts(x: PolNode, remember: bool, bits: int, h: nat, node: PolNode, right: bool, full: bool)
    requires h > 0
    ensures var turn := Digit(bits, h - 1);
            var n, s := Niece(x, turn), Niece(x, 1 - turn);
            && (h == 1 ==>
                  var pair := SideBySide(node, n, s, right, full);
                  InsertBelow(x, remember, bits, h, node, right, full) ==
                  PlacedOn(turn, WithData(n, pair.data, pair.remember), WithNieces(s, pair.l, pair.r), remember))
            && (h > 1 ==>
                  var below := InsertBelow(n, RememberOf(s), bits, h - 1, node, right, full);
                  InsertBelow(x, remember, bits, h, node, right, full) ==
                  PlacedOn(turn, WithNieces(n, below.l, below.r), WithData(s, below.data, below.remember), remember))
  {
    hide Digit;
  }

  lemma {:induction false} PutOnce(v: PolNode, remember: bool, t: int, node: PolNode, right: bool, data: Hash,
                                   full: bool)
    requires (t == 0 || t == 1) && Niece(v, t).Pol? && Niece(v, 1 - t).Pol?
    ensures var n, s := Niece(v, t), Niece(v, 1 - t);
            var pair := SideBySide(node, n, s, right, full);
            var e := Rehash(PutValue(v, t, node, if right then 1 else 0, data, full), [1 - t]);
            PlacedOn(t, WithData(n, pair.data, pair.remember), WithNieces(s, pair.l, pair.r), remember) ==
            Edited(e.l, e.r, e.data, remember)
  {
    hide Rehash;
    var m := PutValue(v, t, node, if right then 1 else 0, data, full);
    RehashParts(m, [1 - t]);
    assert [1 - t][1..] == [];
    RehashParts(Niece(m, 1 - t), []);
  }

  /** Moving nodes and hashing up to the root is the edit that puts back. */
  lemma {:induction false} InsertedByMoves(v: PolNode, remember: bool, bits: int, k: nat, turns: seq<int>,
                                           node: PolNode, right: bool, data: Hash, full: bool)
    requires k >= 1 && turns == TurnsOf(bits, 0, k)
    requires var x := Follow(v, turns[..k - 1]); Niece(x, turns[k - 1]).Pol? && Niece(x, 1 - turns[k - 1]).Pol?
    ensures var w, t := turns[..k - 1], turns[k - 1];
            var m := PutValue(Follow(v, w), t, node, if right then 1 else 0, data, full);
            var e := Rehash(PlugValue(v, w, m), w + [1 - t]);
            InsertBelow(v, remember, bits, k, node, right, full) == Edited(e.l, e.r, e.data, remember)
    decreases k
  {
    hide Follow, Digit, InsertBelow, Rehash, SideBySide;
    TurnsFirst(bits, 0, k);
    var w, d, t := turns[..k - 1], Digit(bits, k - 1), turns[k - 1];
    InsertParts(v, remember, bits, k, node, right, full);
    if k == 1 {
      assert w == [] && turns == [d] && w + [1 - t] == [1 - t];
      FollowNone(v);
      PutOnce(v, remember, t, node, right, data, full);
    } else {
      var n, s, rest := Niece(v, d), Niece(v, 1 - d), TurnsOf(bits, 0, k - 1);
      var w' := rest[..k - 2];
      assert turns == [d] + rest && w == [d] + w' && w[1..] == w' && w[0] == d && t == rest[k - 2];
      FollowFirst(v, d, w');
      InsertedByMoves(n, RememberOf(s), bits, k - 1, rest, node, right, data, full);
      var m := PutValue(Follow(n, w'), t, node, if right then 1 else 0, data, full);
      FollowedPol(v, w, t);
      FollowedPol(n, w', t);
      FollowNone(n);
      assert |w'| == 0 ==> w' == [];
      PlugTop(n, w', m);
      assert [w[0]] + (w' + [1 - t]) == w + [1 - t];
      PlugFurther(v, w, m, remember, w' + [1 - t]);
    }
  }

  /** One level up, with hashing that begins further down. */
  lemma {:induction false} PlugFurther(v: PolNode, w: seq<int>, m: PolNode, remember: bool, rest: seq<int>)
    requires |w| > 0 && v.Pol?
    requires var n, p := Niece(v, w[0]), PlugValue(Niece(v, w[0]), w[1..], m);
             n.Pol? && p.Pol? && p.data == n.data && p.remember == n.remember
    ensures var n, s, e := Niece(v, w[0]), Niece(v, 1 - w[0]), Rehash(PlugValue(Niece(v, w[0]), w[1..], m), rest);
            var d := Rehash(PlugValue(v, w, m), [w[0]] + rest);
            PlacedOn(w[0], WithNieces(n, e.l, e.r), WithData(s, e.data, RememberOf(s)), remember) ==
            Edited(d.l, d.r, d.data, remember)
  {
    hide Rehash;
    RehashParts(PlugValue(v, w, m), [w[0]] + rest);
    assert ([w[0]] + rest)[1..] == rest;
  }
}
