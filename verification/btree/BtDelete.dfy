// The single-pass deletion of btree/btree.cpp on values: what one level does (a turn),
// the whole descent, and what it keeps, removes and may disturb.

module BtDelete {
  import opened BtModel

  // ---------- Rebalancing around kid `i` ----------

  // Kid `i`, key `i` and kid `i + 1` become one node.
  function MergedKid(b: Tree, i: nat): Tree
    requires Internal(b) && i < |b.keys|
  {
    Node(b.kids[i].keys + [b.keys[i]] + b.kids[i + 1].keys, b.kids[i].kids + b.kids[i + 1].kids)
  }

  function Merge(b: Tree, i: nat): Tree
    requires Internal(b) && i < |b.keys|
  {
    Node(b.keys[..i] + b.keys[i + 1..], b.kids[..i] + [MergedKid(b, i)] + b.kids[i + 2..])
  }

  function PushBack(child: Tree, k: int, right: Tree): Tree {
    Node(child.keys + [k], child.kids + if right.kids == [] then [] else [right.kids[0]])
  }

  function PopFirst(right: Tree): Tree
    requires right.keys != []
  {
    Node(right.keys[1..], if right.kids == [] then [] else right.kids[1..])
  }

  function PushFront(left: Tree, k: int, child: Tree): Tree {
    Node([k] + child.keys, (if left.kids == [] then [] else [left.kids[|left.kids| - 1]]) + child.kids)
  }

  function PopLast(left: Tree): Tree
    requires left.keys != []
  {
    Node(left.keys[..|left.keys| - 1], if left.kids == [] then [] else left.kids[..|left.kids| - 1])
  }

  function LastKey(b: Tree): int
    requires b.keys != []
  {
    b.keys[|b.keys| - 1]
  }

  // Kids `i` and `i + 1` and the key between them are replaced.
  function WithPair(b: Tree, i: nat, l: Tree, k: int, r: Tree): Tree
    requires Internal(b) && i < |b.keys|
  {
    Node(b.keys[i := k], b.kids[i := l][i + 1 := r])
  }

  // Kid `i` takes key `i` and the first kid of its right neighbour, whose first key moves up.
  function BorrowRight(b: Tree, i: nat): Tree
    requires Internal(b) && i < |b.keys| && b.kids[i + 1].keys != []
  {
    var child, right := b.kids[i], b.kids[i + 1];
    WithPair(b, i, PushBack(child, b.keys[i], right), right.keys[0], PopFirst(right))
  }

  // The mirror image: kid `i` takes key `i - 1` and the last kid of its left neighbour.
  function BorrowLeft(b: Tree, i: nat): Tree
    requires Internal(b) && 0 < i <= |b.keys| && b.kids[i - 1].keys != []
  {
    var left, child := b.kids[i - 1], b.kids[i];
    WithPair(b, i - 1, PopLast(left), LastKey(left), PushFront(left, b.keys[i - 1], child))
  }

  // ---------- One level ----------

  // Done: nothing below is touched. Otherwise the search for `k` goes on in kid `i` of `b`;
  // FromLeft and FromRight say that `k` was drawn from that kid to replace the deleted key.
  datatype Next =
    | Done(b: Tree)
    | Into(b: Tree, i: nat, k: int)
    | FromLeft(b: Tree, i: nat, k: int)
    | FromRight(b: Tree, i: nat, k: int)

  // The first key that is not smaller.
  function Idx(keys: seq<int>, key: int): (i: nat)
    ensures i <= |keys|
  {
    if keys == [] || key <= keys[0] then 0 else 1 + Idx(keys[1..], key)
  }

  lemma {:induction false} IdxMeaning(keys: seq<int>, key: int)
    ensures var i := Idx(keys, key);
      (i > 0 ==> keys[i - 1] < key) && (i < |keys| ==> key <= keys[i])
  {
    if keys != [] && keys[0] < key { IdxMeaning(keys[1..], key); }
  }

  // The key is key `i` of an internal node.
  function Found(t: int, b: Tree, i: nat): Next
    requires t >= 2 && Internal(b) && i < |b.keys|
  {
    var l, r := b.kids[i].keys, b.kids[i + 1].keys;
    if |l| >= t then FromLeft(Node(b.keys[i := l[|l| - 1]], b.kids), i, l[|l| - 1])
    else if |r| >= t then FromRight(Node(b.keys[i := r[0]], b.kids), i + 1, r[0])
    else Into(Merge(b, i), i, b.keys[i])
  }

  // The key can only be below kid `i`, which is first brought up to t keys.
  function Refill(t: int, b: Tree, i: nat, key: int): Next
    requires t >= 2 && Internal(b) && i <= |b.keys| && b.keys != []
  {
    var n := |b.keys|;
    if |b.kids[i].keys| != t - 1 then Into(b, i, key)
    else if (i > 0 && |b.kids[i - 1].keys| >= t) || (i < n && |b.kids[i + 1].keys| >= t) then
      var richR := if i < n then (if i > 0 then |b.kids[i + 1].keys| > |b.kids[i - 1].keys| else true) else false;
      if i < n && |b.kids[i + 1].keys| >= t && richR then Into(BorrowRight(b, i), i, key)
      else Into(BorrowLeft(b, i), i, key)
    else if i > 0 then Into(Merge(b, i - 1), i - 1, key)
    else Into(Merge(b, i), i, key)
  }

  function Turn(t: int, b: Tree, key: int): Next
    requires t >= 2 && (b.kids == [] || (Internal(b) && b.keys != []))
  {
    var i := Idx(b.keys, key);
    if i < |b.keys| && b.keys[i] == key then
      if b.kids == [] then Done(Node(b.keys[..i] + b.keys[i + 1..], [])) else Found(t, b, i)
    else if b.kids == [] then Done(b)
    else Refill(t, b, i, key)
  }

  // ---------- Shape ----------

  // Deletion only ever enters the root or a node with at least t keys.
  ghost predicate Enterable(t: int, b: Tree, h: nat, top: bool) {
    Shape(t, b, h, if !top then t else if h == 0 then 0 else 1)
  }

  lemma MergeShape(t: int, b: Tree, i: nat, h: nat, min: int)
    requires t >= 2 && h > 0 && Shape(t, b, h, min) && i < |b.keys|
    requires |b.kids[i].keys| == |b.kids[i + 1].keys| == t - 1
    ensures Shape(t, Merge(b, i), h, min - 1) && |Merge(b, i).keys| == |b.keys| - 1
    ensures Shape(t, Merge(b, i).kids[i], h - 1, t)
  {
    var l, r, m := b.kids[i], b.kids[i + 1], MergedKid(b, i);
    assert Shape(t, l, h - 1, t - 1) && Shape(t, r, h - 1, t - 1);
    JoinedShape(t, l, b.keys[i], r, h - 1);
    var b' := Merge(b, i);
    forall j | 0 <= j < |b'.kids| ensures Shape(t, b'.kids[j], h - 1, t - 1) {
      if j < i {
        assert b'.kids[j] == b.kids[j];
      } else if j > i {
        assert b'.kids[j] == b.kids[j + 1];
      }
    }
  }

  lemma JoinedShape(t: int, l: Tree, k: int, r: Tree, h: nat)
    requires t >= 2 && Shape(t, l, h, t - 1) && Shape(t, r, h, t - 1) && |l.keys| == |r.keys| == t - 1
    ensures Shape(t, Node(l.keys + [k] + r.keys, l.kids + r.kids), h, t - 1)
    ensures Shape(t, Node(l.keys + [k] + r.keys, l.kids + r.kids), h, t)
  {
    var m := Node(l.keys + [k] + r.keys, l.kids + r.kids);
    if h > 0 {
      forall j | 0 <= j < |m.kids| ensures Shape(t, m.kids[j], h - 1, t - 1) {
        assert m.kids[j] == if j < |l.kids| then l.kids[j] else r.kids[j - |l.kids|];
      }
    }
  }

  lemma BorrowRightShape(t: int, b: Tree, i: nat, h: nat, min: int)
    requires t >= 2 && h > 0 && Shape(t, b, h, min) && i < |b.keys|
    requires |b.kids[i].keys| == t - 1 && |b.kids[i + 1].keys| >= t
    ensures Shape(t, BorrowRight(b, i), h, min) && |BorrowRight(b, i).keys| == |b.keys|
    ensures Shape(t, BorrowRight(b, i).kids[i], h - 1, t)
  {
    var child, right := b.kids[i], b.kids[i + 1];
    assert Shape(t, child, h - 1, t - 1) && Shape(t, right, h - 1, t - 1);
    var b' := BorrowRight(b, i);
    PushShape(t, child, b.keys[i], right, h - 1);
    PopShape(t, right, h - 1);
    assert Shape(t, b'.kids[i], h - 1, t) && Shape(t, b'.kids[i + 1], h - 1, t - 1);
  }

  lemma PushShape(t: int, child: Tree, k: int, right: Tree, h: nat)
    requires t >= 2 && Shape(t, child, h, t - 1) && Shape(t, right, h, t - 1) && |child.keys| == t - 1
    ensures var c := PushBack(child, k, right);
      Shape(t, c, h, t) && Shape(t, c, h, t - 1)
  {
    var c := PushBack(child, k, right);
    if h > 0 {
      forall j | 0 <= j < |c.kids| ensures Shape(t, c.kids[j], h - 1, t - 1) {
        assert c.kids[j] == if j < |child.kids| then child.kids[j] else right.kids[0];
      }
    }
  }

  lemma PopShape(t: int, right: Tree, h: nat)
    requires t >= 2 && Shape(t, right, h, t - 1) && |right.keys| >= t
    ensures Shape(t, PopFirst(right), h, t - 1)
  {
  }

  lemma BorrowLeftShape(t: int, b: Tree, i: nat, h: nat, min: int)
    requires t >= 2 && h > 0 && Shape(t, b, h, min) && 0 < i <= |b.keys|
    requires |b.kids[i].keys| == t - 1 && |b.kids[i - 1].keys| >= t
    ensures Shape(t, BorrowLeft(b, i), h, min) && |BorrowLeft(b, i).keys| == |b.keys|
    ensures Shape(t, BorrowLeft(b, i).kids[i], h - 1, t)
  {
    var left, child := b.kids[i - 1], b.kids[i];
    assert Shape(t, child, h - 1, t - 1) && Shape(t, left, h - 1, t - 1);
    var b' := BorrowLeft(b, i);
    PushLeftShape(t, left, b.keys[i - 1], child, h - 1);
    PopLastShape(t, left, h - 1);
    assert Shape(t, b'.kids[i], h - 1, t) && Shape(t, b'.kids[i - 1], h - 1, t - 1);
  }

  lemma PushLeftShape(t: int, left: Tree, k: int, child: Tree, h: nat)
    requires t >= 2 && Shape(t, child, h, t - 1) && Shape(t, left, h, t - 1) && |child.keys| == t - 1
    ensures var c := PushFront(left, k, child);
      Shape(t, c, h, t) && Shape(t, c, h, t - 1)
  {
    var c := PushFront(left, k, child);
    if h > 0 {
      forall j | 0 <= j < |c.kids| ensures Shape(t, c.kids[j], h - 1, t - 1) {
        assert c.kids[j] == if j == 0 then left.kids[|left.kids| - 1] else child.kids[j - 1];
      }
    }
  }

  lemma PopLastShape(t: int, left: Tree, h: nat)
    requires t >= 2 && Shape(t, left, h, t - 1) && |left.keys| >= t
    ensures Shape(t, PopLast(left), h, t - 1)
  {
  }

  // A turn leaves a well-shaped node and enters a kid with at least t keys; the node loses a
  // key exactly when two kids were merged.
  ghost predicate TurnFits(t: int, b: Tree, h: nat, next: Next) {
    if next.Done? then h == 0 && next.b.kids == [] && |b.keys| - 1 <= |next.b.keys| <= |b.keys|
    else
      && h > 0 && Internal(next.b) && next.i <= |next.b.keys|
      && |b.keys| - 1 <= |next.b.keys| <= |b.keys|
      && Shape(t, next.b, h, |next.b.keys|)
      && Shape(t, next.b.kids[next.i], h - 1, t)
  }

  lemma FoundShape(t: int, b: Tree, i: nat, h: nat)
    requires t >= 2 && h > 0 && Shape(t, b, h, |b.keys|) && i < |b.keys|
    ensures TurnFits(t, b, h, Found(t, b, i))
  {
    var l, r := b.kids[i], b.kids[i + 1];
    assert Shape(t, l, h - 1, t - 1) && Shape(t, r, h - 1, t - 1);
    if |l.keys| >= t {
      ShapeMin(t, l, h - 1, t - 1, t);
    } else if |r.keys| >= t {
      ShapeMin(t, r, h - 1, t - 1, t);
    } else {
      MergeShape(t, b, i, h, |b.keys|);
    }
  }

  lemma RefillShape(t: int, b: Tree, i: nat, h: nat, key: int)
    requires t >= 2 && h > 0 && Shape(t, b, h, |b.keys|) && i <= |b.keys| && b.keys != []
    ensures TurnFits(t, b, h, Refill(t, b, i, key))
  {
    hide Merge, BorrowLeft, BorrowRight;
    var n := |b.keys|;
    assert Shape(t, b.kids[i], h - 1, t - 1);
    if |b.kids[i].keys| != t - 1 {
      ShapeMin(t, b.kids[i], h - 1, t - 1, t);
    } else {
      if i < n {
        assert Shape(t, b.kids[i + 1], h - 1, t - 1);
        if |b.kids[i + 1].keys| >= t { BorrowRightShape(t, b, i, h, n); } else { MergeShape(t, b, i, h, n); }
      }
      if i > 0 {
        assert Shape(t, b.kids[i - 1], h - 1, t - 1);
        if |b.kids[i - 1].keys| >= t { BorrowLeftShape(t, b, i, h, n); } else { MergeShape(t, b, i - 1, h, n); }
      }
    }
  }

  lemma TurnShape(t: int, b: Tree, h: nat, top: bool, key: int)
    requires t >= 2 && Enterable(t, b, h, top)
    ensures b.kids == [] || (Internal(b) && b.keys != [])
    ensures TurnFits(t, b, h, Turn(t, b, key))
  {
    hide Found, Refill;
    var i := Idx(b.keys, key);
    if h > 0 {
      ShapeMin(t, b, h, if top then 1 else t, |b.keys|);
      if i < |b.keys| && b.keys[i] == key { FoundShape(t, b, i, h); } else { RefillShape(t, b, i, h, key); }
      FoundIsInto(t, b);
    }
  }

  lemma FoundIsInto(t: int, b: Tree)
    requires t >= 2 && Internal(b)
    ensures forall i: nat :: i < |b.keys| ==> !Found(t, b, i).Done?
    ensures b.keys != [] ==> forall i: nat, key :: i <= |b.keys| ==> !Refill(t, b, i, key).Done?
  {
  }

  // ---------- The descent ----------

  // Put the kid back; a node that lost its only key to a merge gives way to the merged kid.
  function Close(b: Tree, i: nat, c: Tree): Tree
    requires i < |b.kids|
  {
    if b.keys == [] then c else WithKid(b, i, c)
  }

  function Delete(t: int, h: nat, b: Tree, key: int, top: bool): Tree
    requires t >= 2 && Enterable(t, b, h, top)
    decreases h
  {
    TurnShape(t, b, h, top, key);
    var next := Turn(t, b, key);
    if next.Done? then next.b
    else Close(next.b, next.i, Delete(t, h - 1, next.b.kids[next.i], next.k, false))
  }

  // The root loses its only key when it has one key and both its kids are minimal.
  predicate Collapses(t: int, b: Tree) {
    Internal(b) && |b.keys| == 1 && |b.kids[0].keys| == |b.kids[1].keys| == t - 1
  }

  lemma TurnCollapses(t: int, b: Tree, h: nat, top: bool, key: int)
    requires t >= 2 && h > 0 && Enterable(t, b, h, top)
    ensures b.kids == [] || (Internal(b) && b.keys != [])
    ensures Turn(t, b, key).b.keys == [] <==> Collapses(t, b)
  {
    var i := Idx(b.keys, key);
    assert Shape(t, b.kids[i], h - 1, t - 1);
    if i < |b.keys| { assert Shape(t, b.kids[i + 1], h - 1, t - 1); }
    if i > 0 { assert Shape(t, b.kids[i - 1], h - 1, t - 1); }
  }

  // Occupancy and uniform depth survive every deletion, whatever the order of the keys; the
  // tree gets lower by one level exactly when the root collapses.
  lemma {:induction false} DeleteShape(t: int, h: nat, b: Tree, key: int, top: bool)
    requires t >= 2 && Enterable(t, b, h, top)
    ensures var r := Delete(t, h, b, key, top);
      if h > 0 && Collapses(t, b) then Shape(t, r, h - 1, t - 1)
      else Shape(t, r, h, if !top then t - 1 else if h == 0 then 0 else 1)
    decreases h
  {
    hide Turn, Collapses;
    TurnShape(t, b, h, top, key);
    var next := Turn(t, b, key);
    if !next.Done? {
      var c := next.b.kids[next.i];
      DeleteShape(t, h - 1, c, next.k, false);
      MinimalKids(t, c, h - 1);
      TurnCollapses(t, b, h, top, key);
      var c' := Delete(t, h - 1, c, next.k, false);
      if next.b.keys != [] {
        ShapeWithKid(t, next.b, next.i, c', h, |next.b.keys|);
        ShapeMin(t, WithKid(next.b, next.i, c'), h, |next.b.keys|, if top then 1 else t - 1);
      }
    }
  }

  // Below the root nothing collapses: a node that is entered there holds at least two keys.
  lemma MinimalKids(t: int, b: Tree, h: nat)
    requires t >= 2 && Shape(t, b, h, t)
    ensures !Collapses(t, b)
  {
  }

  // ---------- Content of a rebalanced node ----------

  function Joined(l: Tree, k: int, r: Tree): Tree {
    Node(l.keys + [k] + r.keys, l.kids + r.kids)
  }

  // Two neighbours of the same height: both leaves or both internal.
  predicate Peers(l: Tree, r: Tree) {
    (l.kids == [] && r.kids == []) || (Internal(l) && Internal(r))
  }

  lemma JoinedFlat(l: Tree, k: int, r: Tree)
    requires Peers(l, r)
    ensures Flat(Joined(l, k, r)) == Flat(l) + [k] + Flat(r)
  {
    if l.kids != [] { JoinFlat(l, k, r); }
  }

  lemma PeerKids(t: int, b: Tree, i: nat, h: nat, min: int)
    requires h > 0 && Shape(t, b, h, min) && i < |b.keys|
    ensures Internal(b) && Peers(b.kids[i], b.kids[i + 1])
  {
    assert Shape(t, b.kids[i], h - 1, t - 1) && Shape(t, b.kids[i + 1], h - 1, t - 1);
  }

  // `b` is `x` with kid `i` cut in two.
  predicate Cut(x: Tree, b: Tree, i: nat, l: Tree, m: int, r: Tree) {
    && Internal(x) && i <= |x.keys|
    && b == Node(x.keys[..i] + [m] + x.keys[i..], x.kids[..i] + [l, r] + x.kids[i + 1..])
  }

  lemma MergeCut(b: Tree, i: nat)
    requires Internal(b) && i < |b.keys|
    ensures Cut(Merge(b, i), b, i, b.kids[i], b.keys[i], b.kids[i + 1])
  {
  }

  lemma CutFlat(x: Tree, b: Tree, i: nat, l: Tree, m: int, r: Tree)
    requires Cut(x, b, i, l, m, r)
    ensures Internal(b) && Flat(b) == Before(x, i) + (Flat(l) + [m] + Flat(r)) + After(x, i)
  {
    hide Flat, Before, After, Front, Back;
    TwoForOne(x, b, i, l, m, r);
    FlatAt(b, i);
    Regroup(Before(x, i), Flat(l), [m], Flat(r), After(x, i));
  }

  lemma MergeFlat(b: Tree, i: nat)
    requires Internal(b) && i < |b.keys| && Peers(b.kids[i], b.kids[i + 1])
    ensures Internal(Merge(b, i)) && Flat(Merge(b, i)) == Flat(b)
    ensures Before(Merge(b, i), i) == Before(b, i) && After(Merge(b, i), i) == After(b, i + 1)
  {
    hide Flat, Before, After, Front, Back;
    var l, m, r := b.kids[i], b.keys[i], b.kids[i + 1];
    MergeCut(b, i);
    CutFlat(Merge(b, i), b, i, l, m, r);
    TwoForOne(Merge(b, i), b, i, l, m, r);
    FlatAt(Merge(b, i), i);
    JoinedFlat(l, m, r);
  }

  lemma PairCut(b: Tree, i: nat, l: Tree, k: int, r: Tree)
    requires Internal(b) && i < |b.keys|
    ensures Cut(Merge(b, i), WithPair(b, i, l, k, r), i, l, k, r)
  {
  }

  // Moving the boundary between two neighbours changes nothing in order.
  lemma PairFlat(b: Tree, i: nat, l: Tree, k: int, r: Tree)
    requires Internal(b) && i < |b.keys| && Peers(b.kids[i], b.kids[i + 1]) && Peers(l, r)
    requires Joined(l, k, r) == Joined(b.kids[i], b.keys[i], b.kids[i + 1])
    ensures Internal(WithPair(b, i, l, k, r)) && Flat(WithPair(b, i, l, k, r)) == Flat(b)
  {
    hide Flat, Before, After, Front, Back, Joined, Merge, WithPair, Cut;
    var b' := WithPair(b, i, l, k, r);
    MergeCut(b, i);
    CutFlat(Merge(b, i), b, i, b.kids[i], b.keys[i], b.kids[i + 1]);
    PairCut(b, i, l, k, r);
    CutFlat(Merge(b, i), b', i, l, k, r);
    JoinedFlat(b.kids[i], b.keys[i], b.kids[i + 1]);
    JoinedFlat(l, k, r);
  }

  lemma JoinedPushBack(l: Tree, k: int, r: Tree)
    requires Peers(l, r) && r.keys != []
    ensures Peers(PushBack(l, k, r), PopFirst(r))
    ensures Joined(PushBack(l, k, r), r.keys[0], PopFirst(r)) == Joined(l, k, r)
  {
    assert r.keys == [r.keys[0]] + r.keys[1..];
    assert r.kids != [] ==> r.kids == [r.kids[0]] + r.kids[1..];
  }

  lemma JoinedPushFront(l: Tree, k: int, r: Tree)
    requires Peers(l, r) && l.keys != []
    ensures Peers(PopLast(l), PushFront(l, k, r))
    ensures Joined(PopLast(l), LastKey(l), PushFront(l, k, r)) == Joined(l, k, r)
  {
    var n := |l.keys|;
    assert l.keys == l.keys[..n - 1] + [l.keys[n - 1]];
    assert l.kids != [] ==> l.kids == l.kids[..n] + [l.kids[n]];
  }

  // ---------- Where the key can be ----------

  // Every key left of kid `i` is smaller and every key right of it larger.
  ghost predicate Straddles(b: Tree, i: nat, key: int)
    requires Internal(b) && i <= |b.keys|
  {
    AllLt(Before(b, i), key) && AllGt(After(b, i), key)
  }

  ghost predicate AllLt(s: seq<int>, key: int) {
    forall x :: x in s ==> x < key
  }

  ghost predicate AllGt(s: seq<int>, key: int) {
    forall x :: x in s ==> key < x
  }

  lemma StrictParts(a: seq<int>, b: seq<int>, c: seq<int>, key: int)
    ensures AllLt(a + b + c, key) <==> AllLt(a, key) && AllLt(b, key) && AllLt(c, key)
    ensures AllGt(a + b + c, key) <==> AllGt(a, key) && AllGt(b, key) && AllGt(c, key)
  {
    assert forall x :: x in a + b + c <==> x in a || x in b || x in c;
  }

  lemma StrictOne(k: int, key: int)
    ensures AllLt([k], key) <==> k < key
    ensures AllGt([k], key) <==> key < k
  {
    assert k in [k];
  }

  lemma StrictBounds(b: Tree, i: nat, key: int)
    requires Internal(b) && i <= |b.keys| && Sorted(Flat(b))
    requires (i > 0 ==> b.keys[i - 1] < key) && (i < |b.keys| ==> key < b.keys[i])
    ensures Straddles(b, i, key)
  {
    hide Flat, Sorted;
    if i > 0 { KeyBounds(b, i, b.keys[i - 1]); } else { assert Before(b, i) == []; }
    if i < |b.keys| { KeyBounds(b, i, b.keys[i]); } else { assert After(b, i) == []; }
  }

  lemma FirstOfBack(b: Tree, i: nat)
    requires Internal(b) && i < |b.keys|
    ensures After(b, i) == [b.keys[i]] + Flat(b.kids[i + 1]) + After(b, i + 1)
  {
    hide Flat;
    assert b.keys[i..][1..] == b.keys[i + 1..] && b.kids[i + 1..][1..] == b.kids[i + 2..];
  }

  lemma KeyInFlat(b: Tree, j: nat)
    requires (b.kids == [] || Internal(b)) && j < |b.keys|
    ensures b.keys[j] in Flat(b)
  {
    hide Flat;
    if b.kids == [] {
      LeafFlat(b);
    } else {
      FlatAt(b, j);
      FirstOfBack(b, j);
    }
  }

  lemma LeafFlat(b: Tree)
    requires b.kids == []
    ensures Flat(b) == b.keys
  {
  }

  // A key next to kid `i`, or in a neighbour of kid `i`, lies on that side of it.
  lemma NearKeys(b: Tree, i: nat, key: int)
    requires Internal(b) && i <= |b.keys| && Straddles(b, i, key)
    ensures i > 1 ==> b.keys[i - 2] < key
    ensures i + 1 < |b.keys| ==> key < b.keys[i + 1]
    ensures i > 0 ==> b.keys[i - 1] < key && AllLt(Flat(b.kids[i - 1]), key)
    ensures i < |b.keys| ==> key < b.keys[i] && AllGt(Flat(b.kids[i + 1]), key)
  {
    hide Flat, Before, After;
    if i > 0 {
      LastOfFront(b, i);
      StrictParts(Before(b, i - 1), Flat(b.kids[i - 1]), [b.keys[i - 1]], key);
      StrictOne(b.keys[i - 1], key);
    }
    if i > 1 {
      LastOfFront(b, i - 1);
      StrictParts(Before(b, i - 2), Flat(b.kids[i - 2]), [b.keys[i - 2]], key);
      StrictOne(b.keys[i - 2], key);
    }
    if i < |b.keys| {
      FirstOfBack(b, i);
      StrictParts([b.keys[i]], Flat(b.kids[i + 1]), After(b, i + 1), key);
      StrictOne(b.keys[i], key);
    }
    if i + 1 < |b.keys| {
      FirstOfBack(b, i + 1);
      StrictParts([b.keys[i + 1]], Flat(b.kids[i + 2]), After(b, i + 2), key);
      StrictOne(b.keys[i + 1], key);
    }
  }

  // Refilling keeps the order and keeps the key below the kid that is entered.
  ghost predicate Refilled(b: Tree, next: Next, key: int) {
    && next.Into? && next.k == key && Internal(next.b) && next.i <= |next.b.keys|
    && Flat(next.b) == Flat(b) && Straddles(next.b, next.i, key)
  }

  lemma RefillPlain(b: Tree, i: nat, key: int)
    requires Internal(b) && i <= |b.keys| && Sorted(Flat(b))
    requires (i > 0 ==> b.keys[i - 1] < key) && (i < |b.keys| ==> key < b.keys[i])
    ensures Refilled(b, Into(b, i, key), key)
  {
    StrictBounds(b, i, key);
  }

  lemma RefillRight(b: Tree, i: nat, key: int)
    requires Internal(b) && i < |b.keys| && Sorted(Flat(b)) && Straddles(b, i, key)
    requires Peers(b.kids[i], b.kids[i + 1]) && b.kids[i + 1].keys != []
    ensures Refilled(b, Into(BorrowRight(b, i), i, key), key)
  {
    hide Flat, Before, After, Joined, PushBack, PopFirst;
    var l, k, r := b.kids[i], b.keys[i], b.kids[i + 1];
    JoinedPushBack(l, k, r);
    PairFlat(b, i, PushBack(l, k, r), r.keys[0], PopFirst(r));
    NearKeys(b, i, key);
    KeyInFlat(r, 0);
    StrictBounds(BorrowRight(b, i), i, key);
  }

  lemma RefillLeft(b: Tree, i: nat, key: int)
    requires Internal(b) && 0 < i <= |b.keys| && Sorted(Flat(b)) && Straddles(b, i, key)
    requires Peers(b.kids[i - 1], b.kids[i]) && b.kids[i - 1].keys != []
    ensures Refilled(b, Into(BorrowLeft(b, i), i, key), key)
  {
    hide Flat, Before, After, Joined, PushFront, PopLast;
    var l, k, r := b.kids[i - 1], b.keys[i - 1], b.kids[i];
    JoinedPushFront(l, k, r);
    PairFlat(b, i - 1, PopLast(l), LastKey(l), PushFront(l, k, r));
    NearKeys(b, i, key);
    KeyInFlat(l, |l.keys| - 1);
    StrictBounds(BorrowLeft(b, i), i, key);
  }

  // Kid `i` is one of the two that are merged at `j`.
  lemma RefillMerge(b: Tree, i: nat, j: nat, key: int)
    requires Internal(b) && i <= |b.keys| && Sorted(Flat(b)) && Straddles(b, i, key)
    requires j < |b.keys| && (i == j || i == j + 1) && Peers(b.kids[j], b.kids[j + 1])
    ensures Refilled(b, Into(Merge(b, j), j, key), key)
  {
    hide Flat, Before, After, MergedKid;
    MergeFlat(b, j);
    NearKeys(b, i, key);
    StrictBounds(Merge(b, j), j, key);
  }

  lemma RefillKeeps(t: int, b: Tree, i: nat, h: nat, key: int)
    requires t >= 2 && h > 0 && Shape(t, b, h, |b.keys|) && i <= |b.keys| && b.keys != []
    requires Sorted(Flat(b))
    requires (i > 0 ==> b.keys[i - 1] < key) && (i < |b.keys| ==> key < b.keys[i])
    ensures Refilled(b, Refill(t, b, i, key), key)
  {
    hide Flat, Before, After, Merge, BorrowLeft, BorrowRight, Refilled, Straddles, Sorted;
    RefillPlain(b, i, key);
    StrictBounds(b, i, key);
    if i < |b.keys| {
      PeerKids(t, b, i, h, |b.keys|);
      RefillMerge(b, i, i, key);
      if b.kids[i + 1].keys != [] { RefillRight(b, i, key); }
    }
    if i > 0 {
      PeerKids(t, b, i - 1, h, |b.keys|);
      RefillMerge(b, i, i - 1, key);
      if b.kids[i - 1].keys != [] { RefillLeft(b, i, key); }
    }
  }

  // ---------- What a deletion removes, and when the order survives ----------

  // One occurrence of `key` less, or nothing at all when there is none.
  ghost predicate Removes(s: seq<int>, s': seq<int>, key: int) {
    multiset(s') == multiset(s) - multiset{key} && (key !in s ==> s' == s)
  }

  lemma RemovesElements(s: seq<int>, s': seq<int>, key: int)
    requires Removes(s, s', key)
    ensures forall x :: x in s' ==> x in s
    ensures forall x :: x in s ==> x in s' || x == key
  {
    forall x | x in s' ensures x in s { assert x in multiset(s'); }
    forall x | x in s ensures x in s' || x == key {
      assert x in multiset(s);
      if x != key { assert x in multiset(s'); }
    }
  }

  lemma MiddleRemoves(a: seq<int>, f: seq<int>, f': seq<int>, b: seq<int>, key: int)
    requires Removes(f, f', key) && (key in a + f + b ==> key in f)
    ensures Removes(a + f + b, a + f' + b, key)
  {
    if key in f {
      assert key in multiset(f) && multiset(f) == multiset(f') + multiset{key};
      assert multiset(a + f' + b) == multiset(a) + multiset(f') + multiset(b);
      assert multiset(a + f + b) == multiset(a) + multiset(f) + multiset(b);
      assert key in a + f + b;
    } else {
      NothingRemoved(a + f + b, key);
    }
  }

  lemma MiddleSorted(a: seq<int>, f: seq<int>, f': seq<int>, b: seq<int>, key: int)
    requires Removes(f, f', key) && Sorted(a + f + b)
    ensures Sorted(a + f' + b) <==> Sorted(f')
  {
    hide Sorted;
    RemovesElements(f, f', key);
    SortedThree(a, f, b);
    SortedThree(a, f', b);
  }

  // `k` leaves `f` and takes the place of `key` to the right of `f`.
  lemma DrawnLeft(a: seq<int>, f: seq<int>, f': seq<int>, key: int, k: int, q: seq<int>)
    requires Removes(f, f', k) && k in f
    ensures Removes(a + f + ([key] + q), a + f' + ([k] + q), key)
    ensures Sorted(a + f + ([key] + q)) ==>
      (Sorted(a + f' + ([k] + q)) <==> Sorted(f') && AllLe(f, k))
  {
    hide Sorted;
    SwappedLeft(a, f, f', key, k, q);
    if Sorted(a + f + ([key] + q)) {
      RemovesElements(f, f', k);
      SortedThree(a, f, [key] + q);
      SortedThree(a, f', [k] + q);
      ConsSorted(key, q);
      ConsSorted(k, q);
      DrawnBounds(a, f, f', key, k, q);
    }
  }

  // The mirror image: `k` takes the place of `key` to the left of `f`.
  lemma DrawnRight(p: seq<int>, key: int, k: int, f: seq<int>, f': seq<int>, b: seq<int>)
    requires Removes(f, f', k) && k in f
    ensures Removes((p + [key]) + f + b, (p + [k]) + f' + b, key)
    ensures Sorted((p + [key]) + f + b) ==>
      (Sorted((p + [k]) + f' + b) <==> Sorted(f') && AllGe(f, k))
  {
    hide Sorted;
    SwappedRight(p, key, k, f, f', b);
    if Sorted((p + [key]) + f + b) {
      RemovesElements(f, f', k);
      SortedThree(p + [key], f, b);
      SortedThree(p + [k], f', b);
      SnocSorted(p, key);
      SnocSorted(p, k);
      DrawnBoundsRight(p, key, k, f, f', b);
    }
  }

  lemma SwappedLeft(a: seq<int>, f: seq<int>, f': seq<int>, key: int, k: int, q: seq<int>)
    requires multiset(f') == multiset(f) - multiset{k} && k in f
    ensures Removes(a + f + ([key] + q), a + f' + ([k] + q), key)
  {
    assert k in multiset(f);
    assert multiset(f) == multiset(f') + multiset{k};
    assert key in [key] + q;
    assert multiset(a + f + ([key] + q)) == multiset(a) + multiset(f) + (multiset{key} + multiset(q));
    assert multiset(a + f' + ([k] + q)) == multiset(a) + multiset(f') + (multiset{k} + multiset(q));
  }

  lemma SwappedRight(p: seq<int>, key: int, k: int, f: seq<int>, f': seq<int>, b: seq<int>)
    requires multiset(f') == multiset(f) - multiset{k} && k in f
    ensures Removes((p + [key]) + f + b, (p + [k]) + f' + b, key)
  {
    assert k in multiset(f);
    assert multiset(f) == multiset(f') + multiset{k};
    assert key in p + [key];
    assert multiset((p + [key]) + f + b) == (multiset(p) + multiset{key}) + multiset(f) + multiset(b);
    assert multiset((p + [k]) + f' + b) == (multiset(p) + multiset{k}) + multiset(f') + multiset(b);
  }

  lemma DrawnBounds(a: seq<int>, f: seq<int>, f': seq<int>, key: int, k: int, q: seq<int>)
    requires k in f && (forall x :: x in f' ==> x in f) && (forall x :: x in f ==> x in f' || x == k)
    requires LeAll(a, f) && LeAll(f, [key] + q) && LeAll(a, [key] + q) && AllGe(q, key)
    ensures AllGe(q, k) && LeAll(a, f') && LeAll(a, [k] + q)
    ensures LeAll(f', [k] + q) <==> AllLe(f, k)
  {
    assert key in [key] + q && k in [k] + q;
    assert forall x :: x in q ==> x in [key] + q && x in [k] + q;
    assert forall x :: x in [k] + q ==> x == k || x in q;
  }

  lemma DrawnBoundsRight(p: seq<int>, key: int, k: int, f: seq<int>, f': seq<int>, b: seq<int>)
    requires k in f && (forall x :: x in f' ==> x in f) && (forall x :: x in f ==> x in f' || x == k)
    requires LeAll(p + [key], f) && LeAll(f, b) && LeAll(p + [key], b) && AllLe(p, key)
    ensures AllLe(p, k) && LeAll(f', b) && LeAll(p + [k], b)
    ensures LeAll(p + [k], f') <==> AllGe(f, k)
  {
    assert key in p + [key] && k in p + [k];
    assert forall x :: x in p ==> x in p + [key] && x in p + [k];
    assert forall x :: x in p + [k] ==> x == k || x in p;
  }

  lemma ConsSorted(k: int, q: seq<int>)
    ensures Sorted([k] + q) <==> Sorted(q) && AllGe(q, k)
  {
    SortedConcat([k], q);
    assert Sorted([k]) && forall y :: y in [k] <==> y == k;
  }

  lemma SnocSorted(p: seq<int>, k: int)
    ensures Sorted(p + [k]) <==> Sorted(p) && AllLe(p, k)
  {
    SortedConcat(p, [k]);
    assert k in [k] && Sorted([k]) && forall y :: y in [k] <==> y == k;
  }

  lemma CloseFlat(b: Tree, i: nat, c: Tree)
    requires Internal(b) && i <= |b.keys|
    ensures Flat(Close(b, i, c)) == Before(b, i) + Flat(c) + After(b, i)
    ensures Flat(b) == Before(b, i) + Flat(b.kids[i]) + After(b, i)
  {
    hide Flat;
    FlatAt(b, i);
    FlatWithKid(b, i, c);
  }

  // The key below the kid that is entered is the only one that can go.
  ghost predicate Rebalanced(b: Tree, next: Next, key: int) {
    && next.Into? && next.k == key && Internal(next.b) && next.i <= |next.b.keys|
    && Flat(next.b) == Flat(b) && (key in Flat(b) ==> key in Flat(next.b.kids[next.i]))
  }

  lemma RefilledRebalanced(b: Tree, next: Next, key: int)
    requires Refilled(b, next, key)
    ensures Rebalanced(b, next, key)
  {
    hide Flat, Before, After;
    FlatAt(next.b, next.i);
  }

  lemma StepInto(b: Tree, next: Next, key: int, c': Tree)
    requires Rebalanced(b, next, key) && Sorted(Flat(b))
    requires Removes(Flat(next.b.kids[next.i]), Flat(c'), key)
    ensures Removes(Flat(b), Flat(Close(next.b, next.i, c')), key)
    ensures Sorted(Flat(Close(next.b, next.i, c'))) <==> Sorted(Flat(c'))
  {
    hide Flat, Before, After, Sorted, Removes, Close;
    CloseFlat(next.b, next.i, c');
    var a, f, q := Before(next.b, next.i), Flat(next.b.kids[next.i]), After(next.b, next.i);
    MiddleRemoves(a, f, Flat(c'), q, key);
    MiddleSorted(a, f, Flat(c'), q, key);
  }

  // `k` is a key of kid `i`; it replaces key `i`.
  lemma StepLeft(b: Tree, i: nat, k: int, c': Tree)
    requires Internal(b) && i < |b.keys| && Sorted(Flat(b)) && k in Flat(b.kids[i])
    requires Removes(Flat(b.kids[i]), Flat(c'), k)
    ensures var r := Close(Node(b.keys[i := k], b.kids), i, c');
      && Removes(Flat(b), Flat(r), b.keys[i])
      && (Sorted(Flat(r)) <==> Sorted(Flat(c')) && AllLe(Flat(b.kids[i]), k))
  {
    hide Flat, Before, After, Sorted, Removes, Close, AllLe;
    var b', key := Node(b.keys[i := k], b.kids), b.keys[i];
    CloseFlat(b', i, c');
    FlatAt(b, i);
    SameSides(b, b', i);
    FirstOfBack(b, i);
    FirstOfBack(b', i);
    var q := Flat(b.kids[i + 1]) + After(b, i + 1);
    Assoc3([key], Flat(b.kids[i + 1]), After(b, i + 1));
    Assoc3([k], Flat(b.kids[i + 1]), After(b, i + 1));
    DrawnLeft(Before(b, i), Flat(b.kids[i]), Flat(c'), key, k, q);
  }

  lemma StepRight(b: Tree, i: nat, k: int, c': Tree)
    requires Internal(b) && i < |b.keys| && Sorted(Flat(b)) && k in Flat(b.kids[i + 1])
    requires Removes(Flat(b.kids[i + 1]), Flat(c'), k)
    ensures var r := Close(Node(b.keys[i := k], b.kids), i + 1, c');
      && Removes(Flat(b), Flat(r), b.keys[i])
      && (Sorted(Flat(r)) <==> Sorted(Flat(c')) && AllGe(Flat(b.kids[i + 1]), k))
  {
    hide Flat, Before, After, Sorted, Removes, Close, AllGe;
    var b', key := Node(b.keys[i := k], b.kids), b.keys[i];
    CloseFlat(b', i + 1, c');
    FlatAt(b, i + 1);
    SameSides(b, b', i);
    LastOfFront(b, i + 1);
    LastOfFront(b', i + 1);
    DrawnRight(Before(b, i) + Flat(b.kids[i]), key, k, Flat(b.kids[i + 1]), Flat(c'), After(b, i + 1));
  }

  // Only key `i` differs.
  lemma SameSides(b: Tree, b': Tree, i: nat)
    requires Internal(b) && i < |b.keys| && |b'.keys| == |b.keys| && b'.kids == b.kids
    requires forall j :: 0 <= j < |b.keys| && j != i ==> b'.keys[j] == b.keys[j]
    ensures Before(b', i) == Before(b, i) && After(b', i + 1) == After(b, i + 1)
  {
    hide Flat;
    assert b'.keys[..i] == b.keys[..i] && b'.keys[i + 1..] == b.keys[i + 1..];
  }

  // The drawn key is the extreme key of the kid it is drawn from.
  ghost predicate DrawsExtreme(next: Next)
    requires !next.Done? ==> next.i < |next.b.kids|
  {
    match next
    case FromLeft(b, i, k) => AllLe(Flat(b.kids[i]), k)
    case FromRight(b, i, k) => AllGe(Flat(b.kids[i]), k)
    case _ => true
  }

  // Every draw on the way down takes the extreme key of the kid it draws from.
  ghost predicate DrawsOk(t: int, h: nat, b: Tree, key: int, top: bool)
    requires t >= 2 && Enterable(t, b, h, top)
    decreases h
  {
    TurnShape(t, b, h, top, key);
    var next := Turn(t, b, key);
    next.Done? || (DrawsExtreme(next) && DrawsOk(t, h - 1, next.b.kids[next.i], next.k, false))
  }

  lemma FoundDraws(t: int, b: Tree, i: nat, h: nat)
    requires t >= 2 && h > 0 && Shape(t, b, h, |b.keys|) && i < |b.keys|
    ensures var next := Found(t, b, i);
      && (next.FromLeft? ==> next.b == Node(b.keys[i := next.k], b.kids) && next.i == i && next.k in Flat(b.kids[i]))
      && (next.FromRight? ==> next.b == Node(b.keys[i := next.k], b.kids) && next.i == i + 1 && next.k in Flat(b.kids[i + 1]))
      && (next.Into? ==> Rebalanced(b, next, b.keys[i]))
  {
    hide Flat;
    var l, r := b.kids[i], b.kids[i + 1];
    assert Shape(t, l, h - 1, t - 1) && Shape(t, r, h - 1, t - 1);
    KeyInFlat(l, |l.keys| - 1);
    KeyInFlat(r, 0);
    if |l.keys| < t && |r.keys| < t {
      PeerKids(t, b, i, h, |b.keys|);
      MergeFlat(b, i);
      KeyInFlat(MergedKid(b, i), |l.keys|);
    }
  }

  // The result of a turn, once the deletion below has given `c'`.
  ghost predicate StepKeeps(b: Tree, next: Next, key: int, c': Tree)
    requires !next.Done? && Internal(next.b) && next.i <= |next.b.keys|
  {
    var r := Close(next.b, next.i, c');
    && Removes(Flat(b), Flat(r), key)
    && (Sorted(Flat(r)) <==> Sorted(Flat(c')) && DrawsExtreme(next))
  }

  lemma FoundKeeps(t: int, b: Tree, i: nat, h: nat, c': Tree)
    requires t >= 2 && h > 0 && Internal(b) && Shape(t, b, h, |b.keys|) && i < |b.keys| && Sorted(Flat(b))
    requires TurnFits(t, b, h, Found(t, b, i)) && !Found(t, b, i).Done?
    requires var next := Found(t, b, i); Removes(Flat(next.b.kids[next.i]), Flat(c'), next.k)
    ensures StepKeeps(b, Found(t, b, i), b.keys[i], c')
  {
    hide Flat, Sorted, Removes, Close, Found, Rebalanced, Shape;
    var next := Found(t, b, i);
    FoundDraws(t, b, i, h);
    FoundShapeless(t, b, i);
    match next
    case FromLeft(_, _, k) => StepLeft(b, i, k, c');
    case FromRight(_, _, k) => StepRight(b, i, k, c');
    case Into(_, _, _) => StepInto(b, next, b.keys[i], c');
  }

  lemma FoundShapeless(t: int, b: Tree, i: nat)
    requires t >= 2 && Internal(b) && i < |b.keys|
    ensures !Found(t, b, i).Done? && (Found(t, b, i).Into? ==> Found(t, b, i).k == b.keys[i])
  {
  }

  lemma RefillKept(t: int, b: Tree, i: nat, h: nat, key: int, c': Tree)
    requires t >= 2 && h > 0 && Internal(b) && Shape(t, b, h, |b.keys|) && i <= |b.keys| && b.keys != [] && Sorted(Flat(b))
    requires (i > 0 ==> b.keys[i - 1] < key) && (i < |b.keys| ==> key < b.keys[i])
    requires TurnFits(t, b, h, Refill(t, b, i, key)) && !Refill(t, b, i, key).Done?
    requires var next := Refill(t, b, i, key); Removes(Flat(next.b.kids[next.i]), Flat(c'), next.k)
    ensures StepKeeps(b, Refill(t, b, i, key), key, c')
  {
    hide Flat, Sorted, Removes, Close, Refill, Rebalanced, Shape;
    var next := Refill(t, b, i, key);
    RefillKeeps(t, b, i, h, key);
    RefilledRebalanced(b, next, key);
    RefillInto(t, b, i, key);
    StepInto(b, next, key, c');
  }

  lemma RefillInto(t: int, b: Tree, i: nat, key: int)
    requires t >= 2 && Internal(b) && i <= |b.keys| && b.keys != []
    ensures Refill(t, b, i, key).Into? && Refill(t, b, i, key).k == key
  {
  }

  lemma TurnKeeps(t: int, b: Tree, h: nat, top: bool, key: int, c': Tree)
    requires t >= 2 && Enterable(t, b, h, top) && Sorted(Flat(b))
    requires (b.kids == [] || (Internal(b) && b.keys != [])) && !Turn(t, b, key).Done?
    requires TurnFits(t, b, h, Turn(t, b, key))
    requires var next := Turn(t, b, key); Removes(Flat(next.b.kids[next.i]), Flat(c'), next.k)
    ensures StepKeeps(b, Turn(t, b, key), key, c')
  {
    hide Flat, Sorted, Removes, Found, Refill, StepKeeps, TurnFits;
    var i := Idx(b.keys, key);
    IdxMeaning(b.keys, key);
    ShapeMin(t, b, h, if top then 1 else t, |b.keys|);
    if i < |b.keys| && b.keys[i] == key { FoundKeeps(t, b, i, h, c'); } else { RefillKept(t, b, i, h, key, c'); }
  }

  lemma LeafFound(s: seq<int>, i: nat)
    requires i < |s| && Sorted(s)
    ensures Removes(s, s[..i] + s[i + 1..], s[i]) && Sorted(s[..i] + s[i + 1..])
  {
    hide Sorted;
    var a, k, b := s[..i], s[i], s[i + 1..];
    assert s == a + [k] + b;
    MultisetInsert(a, k, b);
    SortedThree(a, [k], b);
    SortedConcat(a, b);
  }

  lemma LeafAbsent(s: seq<int>, key: int)
    requires Sorted(s) && (Idx(s, key) < |s| ==> s[Idx(s, key)] != key)
    ensures key !in s
  {
    hide Sorted, Idx;
    var i := Idx(s, key);
    IdxMeaning(s, key);
    assert s == s[..i] + s[i..];
    SortedConcat(s[..i], s[i..]);
    if i > 0 { LastBound(s[..i], s[i - 1]); }
    if i < |s| { HeadBound(s[i..], s[i]); }
  }

  lemma LeafContent(t: int, b: Tree, key: int, top: bool)
    requires t >= 2 && Enterable(t, b, 0, top) && Sorted(Flat(b))
    ensures Removes(Flat(b), Flat(Delete(t, 0, b, key, top)), key)
    ensures Sorted(Flat(Delete(t, 0, b, key, top))) && DrawsOk(t, 0, b, key, top)
  {
    hide Sorted, Removes, Idx;
    TurnShape(t, b, 0, top, key);
    var i := Idx(b.keys, key);
    LeafFlat(b);
    LeafFlat(Turn(t, b, key).b);
    if i < |b.keys| && b.keys[i] == key {
      LeafFound(b.keys, i);
    } else {
      LeafAbsent(b.keys, key);
      NothingRemoved(b.keys, key);
    }
  }

  lemma NothingRemoved(s: seq<int>, key: int)
    requires key !in s
    ensures Removes(s, s, key)
  {
    assert key !in multiset(s);
  }

  // The kid that is entered is in order too.
  lemma SortedKid(t: int, b: Tree, h: nat, top: bool, key: int)
    requires t >= 2 && h > 0 && Enterable(t, b, h, top) && Sorted(Flat(b))
    requires Internal(b) && b.keys != []
    requires TurnFits(t, b, h, Turn(t, b, key)) && !Turn(t, b, key).Done?
    ensures var next := Turn(t, b, key); Sorted(Flat(next.b.kids[next.i]))
  {
    hide Flat, Sorted, Found, Refill, Before, After;
    var i, next := Idx(b.keys, key), Turn(t, b, key);
    IdxMeaning(b.keys, key);
    ShapeMin(t, b, h, if top then 1 else t, |b.keys|);
    if i < |b.keys| && b.keys[i] == key {
      FoundDraws(t, b, i, h);
    } else {
      RefillKeeps(t, b, i, h, key);
    }
    if next.Into? {
      FlatAt(next.b, next.i);
      SortedThree(Before(next.b, next.i), Flat(next.b.kids[next.i]), After(next.b, next.i));
    } else {
      FlatAt(b, next.i);
      SortedThree(Before(b, next.i), Flat(b.kids[next.i]), After(b, next.i));
    }
  }

  lemma DeleteUnfolds(t: int, h: nat, b: Tree, key: int, top: bool)
    requires t >= 2 && h > 0 && Enterable(t, b, h, top)
    ensures Internal(b) && b.keys != []
    ensures TurnFits(t, b, h, Turn(t, b, key))
    ensures var next := Turn(t, b, key);
      && !next.Done?
      && Enterable(t, next.b.kids[next.i], h - 1, false)
      && Delete(t, h, b, key, top) == Close(next.b, next.i, Delete(t, h - 1, next.b.kids[next.i], next.k, false))
      && (DrawsOk(t, h, b, key, top) <==>
           DrawsExtreme(next) && DrawsOk(t, h - 1, next.b.kids[next.i], next.k, false))
  {
    hide Turn, DrawsExtreme, Close;
    TurnShape(t, b, h, top, key);
  }

  // From a search-ordered tree a deletion takes away exactly one occurrence of the key, or
  // nothing if there is none; and the result is in order exactly when every draw was extreme.
  lemma {:induction false} DeleteContent(t: int, h: nat, b: Tree, key: int, top: bool)
    requires t >= 2 && Enterable(t, b, h, top) && Sorted(Flat(b))
    ensures Removes(Flat(b), Flat(Delete(t, h, b, key, top)), key)
    ensures Sorted(Flat(Delete(t, h, b, key, top))) <==> DrawsOk(t, h, b, key, top)
    decreases h
  {
    hide Flat, Removes, Sorted, Delete, DrawsOk, Turn, Shape;
    if h == 0 {
      LeafContent(t, b, key, top);
    } else {
      DeleteUnfolds(t, h, b, key, top);
      var next := Turn(t, b, key);
      var c := next.b.kids[next.i];
      SortedKid(t, b, h, top, key);
      DeleteContent(t, h - 1, c, next.k, false);
      TurnKeeps(t, b, h, top, key, Delete(t, h - 1, c, next.k, false));
    }
  }
}
