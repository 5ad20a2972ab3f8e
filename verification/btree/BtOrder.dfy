// When deletion keeps the search order, and when it does not.

module BtOrder {
  import opened BtModel
  import opened BtDelete

  // Every draw on the way down is from a leaf.
  ghost predicate DrawsFromLeaf(t: int, h: nat, b: Tree, key: int, top: bool)
    requires t >= 2 && Enterable(t, b, h, top)
    decreases h
  {
    TurnShape(t, b, h, top, key);
    var next := Turn(t, b, key);
    next.Done?
    || ((next.Into? || h == 1) && DrawsFromLeaf(t, h - 1, next.b.kids[next.i], next.k, false))
  }

  lemma LeafDraw(t: int, b: Tree, h: nat, i: nat)
    requires t >= 2 && h == 1 && Shape(t, b, h, |b.keys|) && i < |b.keys| && Sorted(Flat(b))
    ensures TurnFits(t, b, h, Found(t, b, i)) && DrawsExtreme(Found(t, b, i))
  {
    hide Flat, Sorted, Before, After;
    FoundShape(t, b, i, h);
    var next := Found(t, b, i);
    FoundDraws(t, b, i, h);
    if !next.Into? && !next.Done? {
      var c := b.kids[next.i];
      LeafFlat(c);
      FlatAt(b, next.i);
      SortedThree(Before(b, next.i), Flat(c), After(b, next.i));
      LastBound(c.keys, c.keys[|c.keys| - 1]);
      HeadBound(c.keys, c.keys[0]);
    }
  }

  lemma {:induction false} LeafDrawsAreExtreme(t: int, h: nat, b: Tree, key: int, top: bool)
    requires t >= 2 && Enterable(t, b, h, top) && Sorted(Flat(b)) && DrawsFromLeaf(t, h, b, key, top)
    ensures DrawsOk(t, h, b, key, top)
    decreases h
  {
    hide Flat, Sorted, DrawsOk, Found, Refill, Shape;
    if h == 0 {
      LeafContent(t, b, key, top);
    } else {
      DeleteUnfolds(t, h, b, key, top);
      SortedKid(t, b, h, top, key);
      var next := Turn(t, b, key);
      LeafDrawsAreExtreme(t, h - 1, next.b.kids[next.i], next.k, false);
      if !next.Into? {
        ShapeMin(t, b, h, if top then 1 else t, |b.keys|);
        TurnIsFound(t, b, key);
        LeafDraw(t, b, h, Idx(b.keys, key));
      }
    }
  }

  // ---------- The same condition, read off the outermost leaves ----------

  // The last key of the rightmost leaf, and the first key of the leftmost one.
  function Rightmost(b: Tree): int {
    if b.kids != [] then Rightmost(b.kids[|b.kids| - 1]) else if b.keys != [] then b.keys[|b.keys| - 1] else 0
  }

  function Leftmost(b: Tree): int {
    if b.kids != [] then Leftmost(b.kids[0]) else if b.keys != [] then b.keys[0] else 0
  }

  lemma {:induction false} Ends(t: int, b: Tree, h: nat, min: int)
    requires t >= 2 && Shape(t, b, h, min) && min >= 1
    ensures Flat(b) != [] && Flat(b)[|Flat(b)| - 1] == Rightmost(b) && Flat(b)[0] == Leftmost(b)
    decreases h
  {
    hide Flat, Before, After;
    if h == 0 {
      LeafFlat(b);
    } else {
      var n := |b.keys|;
      Ends(t, b.kids[n], h - 1, t - 1);
      Ends(t, b.kids[0], h - 1, t - 1);
      FlatAt(b, n);
      FlatAt(b, 0);
      NothingOutside(b);
    }
  }

  lemma NothingOutside(b: Tree)
    requires Internal(b)
    ensures Before(b, 0) == [] && After(b, |b.keys|) == []
  {
  }

  // The drawn key compared with that one key of the kid it is drawn from.
  predicate DrawsOutermost(next: Next)
    requires !next.Done? ==> next.i < |next.b.kids|
  {
    match next
    case FromLeft(b, i, k) => Rightmost(b.kids[i]) <= k
    case FromRight(b, i, k) => k <= Leftmost(b.kids[i])
    case _ => true
  }

  lemma OutermostIsExtreme(t: int, next: Next, h: nat)
    requires t >= 2 && !next.Done? && next.i < |next.b.kids|
    requires Shape(t, next.b.kids[next.i], h, t) && Sorted(Flat(next.b.kids[next.i]))
    ensures DrawsExtreme(next) <==> DrawsOutermost(next)
  {
    hide Flat, Sorted, Shape;
    var s := Flat(next.b.kids[next.i]);
    Ends(t, next.b.kids[next.i], h, t);
    assert s[0] in s && s[|s| - 1] in s;
    if s[|s| - 1] <= next.k { LastBound(s, next.k); }
    if next.k <= s[0] { HeadBound(s, next.k); }
  }

  // Every draw on the way down passes that comparison.
  ghost predicate DrawsInOrder(t: int, h: nat, b: Tree, key: int, top: bool)
    requires t >= 2 && Enterable(t, b, h, top)
    decreases h
  {
    TurnShape(t, b, h, top, key);
    var next := Turn(t, b, key);
    next.Done? || (DrawsOutermost(next) && DrawsInOrder(t, h - 1, next.b.kids[next.i], next.k, false))
  }

  lemma {:induction false} DrawsInOrderIsOk(t: int, h: nat, b: Tree, key: int, top: bool)
    requires t >= 2 && Enterable(t, b, h, top) && Sorted(Flat(b))
    ensures DrawsInOrder(t, h, b, key, top) <==> DrawsOk(t, h, b, key, top)
    decreases h
  {
    hide Flat, Sorted, Turn, Shape, DrawsExtreme, DrawsOutermost;
    TurnShape(t, b, h, top, key);
    if h > 0 {
      DeleteUnfolds(t, h, b, key, top);
      SortedKid(t, b, h, top, key);
      var next := Turn(t, b, key);
      OutermostIsExtreme(t, next, h - 1);
      DrawsInOrderIsOk(t, h - 1, next.b.kids[next.i], next.k, false);
    }
  }

  // With or without repeated keys: the order survives exactly when every draw passes it.
  lemma OrderExactlyOutermost(t: int, h: nat, b: Tree, key: int, top: bool)
    requires t >= 2 && Enterable(t, b, h, top) && Sorted(Flat(b))
    ensures Sorted(Flat(Delete(t, h, b, key, top))) <==> DrawsInOrder(t, h, b, key, top)
  {
    DeleteContent(t, h, b, key, top);
    DrawsInOrderIsOk(t, h, b, key, top);
  }

  // ---------- Without repeated keys ----------

  lemma TurnIsFound(t: int, b: Tree, key: int)
    requires t >= 2 && Internal(b) && b.keys != [] && !Turn(t, b, key).Into?
    ensures Idx(b.keys, key) < |b.keys| && b.keys[Idx(b.keys, key)] == key
    ensures Turn(t, b, key) == Found(t, b, Idx(b.keys, key))
  {
    RefillInto(t, b, Idx(b.keys, key), key);
  }

  ghost predicate NoRepeats(s: seq<int>) {
    forall x :: multiset(s)[x] <= 1
  }

  lemma MiddleNoRepeats(a: seq<int>, f: seq<int>, b: seq<int>)
    requires NoRepeats(a + f + b)
    ensures NoRepeats(f)
    ensures forall x :: x in f ==> x !in a && x !in b
  {
    assert multiset(a + f + b) == multiset(a) + multiset(f) + multiset(b);
    forall x ensures multiset(f)[x] <= 1 && (x in f ==> x !in a && x !in b) {
      assert multiset(a + f + b)[x] == multiset(a)[x] + multiset(f)[x] + multiset(b)[x];
      assert x in a ==> x in multiset(a);
      assert x in b ==> x in multiset(b);
      assert x in f ==> x in multiset(f);
    }
  }

  // Without repeated keys, an internal node has keys below it on both sides of its own keys.
  lemma InternalDraw(t: int, c: Tree, h: nat)
    requires t >= 2 && h > 0 && Shape(t, c, h, t - 1) && Sorted(Flat(c)) && NoRepeats(Flat(c))
    ensures !AllLe(Flat(c), c.keys[|c.keys| - 1]) && !AllGe(Flat(c), c.keys[0])
  {
    hide Flat, Sorted, Before, After, NoRepeats;
    var n := |c.keys|;
    KidAtEdge(t, c, h, n);
    LastOfFront(c, n);
    assert c.keys[n - 1] in Before(c, n);
    KidAtEdge(t, c, h, 0);
    FirstOfBack(c, 0);
    assert c.keys[0] in After(c, 0);
  }

  // A kid holds some key, strictly between everything left and everything right of it.
  lemma KidAtEdge(t: int, c: Tree, h: nat, i: nat)
    requires t >= 2 && h > 0 && Shape(t, c, h, t - 1) && Sorted(Flat(c)) && NoRepeats(Flat(c)) && i <= |c.keys|
    ensures c.kids[i].keys != [] && c.kids[i].keys[0] in Flat(c)
    ensures forall x :: x in Before(c, i) ==> x < c.kids[i].keys[0]
    ensures forall x :: x in After(c, i) ==> c.kids[i].keys[0] < x
  {
    hide Flat, Sorted, Before, After, NoRepeats;
    assert Shape(t, c.kids[i], h - 1, t - 1);
    KeyInFlat(c.kids[i], 0);
    FlatAt(c, i);
    SortedThree(Before(c, i), Flat(c.kids[i]), After(c, i));
    MiddleNoRepeats(Before(c, i), Flat(c.kids[i]), After(c, i));
  }

  lemma InternalDrawNotExtreme(t: int, b: Tree, h: nat, i: nat)
    requires t >= 2 && h > 1 && Shape(t, b, h, |b.keys|) && i < |b.keys|
    requires Sorted(Flat(b)) && NoRepeats(Flat(b)) && TurnFits(t, b, h, Found(t, b, i)) && !Found(t, b, i).Into?
    ensures !Found(t, b, i).Done? && !DrawsExtreme(Found(t, b, i))
  {
    hide Flat, Sorted, Before, After, NoRepeats;
    var next := Found(t, b, i);
    FoundDraws(t, b, i, h);
    var c := b.kids[next.i];
    assert Shape(t, c, h - 1, t - 1);
    FlatAt(b, next.i);
    SortedThree(Before(b, next.i), Flat(c), After(b, next.i));
    MiddleNoRepeats(Before(b, next.i), Flat(c), After(b, next.i));
    InternalDraw(t, c, h - 1);
  }

  lemma KidNoRepeats(t: int, b: Tree, h: nat, top: bool, key: int)
    requires t >= 2 && h > 0 && Enterable(t, b, h, top) && Sorted(Flat(b)) && NoRepeats(Flat(b))
    requires Internal(b) && b.keys != []
    requires TurnFits(t, b, h, Turn(t, b, key)) && !Turn(t, b, key).Done?
    ensures var next := Turn(t, b, key); NoRepeats(Flat(next.b.kids[next.i]))
  {
    hide Flat, Sorted, Found, Refill, Before, After, NoRepeats;
    var i, next := Idx(b.keys, key), Turn(t, b, key);
    IdxMeaning(b.keys, key);
    ShapeMin(t, b, h, if top then 1 else t, |b.keys|);
    if i < |b.keys| && b.keys[i] == key { FoundDraws(t, b, i, h); } else { RefillKeeps(t, b, i, h, key); }
    if next.Into? {
      FlatAt(next.b, next.i);
      MiddleNoRepeats(Before(next.b, next.i), Flat(next.b.kids[next.i]), After(next.b, next.i));
    } else {
      FlatAt(b, next.i);
      MiddleNoRepeats(Before(b, next.i), Flat(b.kids[next.i]), After(b, next.i));
    }
  }

  // Without repeated keys, the order survives exactly when every draw is from a leaf.
  lemma OrderExactlyFromLeaves(t: int, h: nat, b: Tree, key: int, top: bool)
    requires t >= 2 && Enterable(t, b, h, top) && Sorted(Flat(b)) && NoRepeats(Flat(b))
    ensures Sorted(Flat(Delete(t, h, b, key, top))) <==> DrawsFromLeaf(t, h, b, key, top)
  {
    hide Flat, Sorted, NoRepeats, Delete, DrawsOk, DrawsFromLeaf;
    DeleteContent(t, h, b, key, top);
    if DrawsFromLeaf(t, h, b, key, top) {
      LeafDrawsAreExtreme(t, h, b, key, top);
    } else {
      ExtremeDrawsAreFromLeaves(t, h, b, key, top);
    }
  }

  lemma {:induction false} ExtremeDrawsAreFromLeaves(t: int, h: nat, b: Tree, key: int, top: bool)
    requires t >= 2 && Enterable(t, b, h, top) && Sorted(Flat(b)) && NoRepeats(Flat(b))
    ensures DrawsOk(t, h, b, key, top) ==> DrawsFromLeaf(t, h, b, key, top)
    decreases h
  {
    hide Flat, Sorted, NoRepeats, DrawsOk, Found, Refill, Shape;
    if h == 0 {
      TurnShape(t, b, h, top, key);
    } else {
      DeleteUnfolds(t, h, b, key, top);
      SortedKid(t, b, h, top, key);
      KidNoRepeats(t, b, h, top, key);
      var next := Turn(t, b, key);
      ExtremeDrawsAreFromLeaves(t, h - 1, next.b.kids[next.i], next.k, false);
      if !next.Into? && h > 1 {
        ShapeMin(t, b, h, if top then 1 else t, |b.keys|);
        TurnIsFound(t, b, key);
        InternalDrawNotExtreme(t, b, h, Idx(b.keys, key));
      }
    }
  }

  // The key is not held in an internal node whose kids are internal.
  ghost predicate HeldLow(b: Tree, h: nat, key: int)
    decreases h
  {
    h >= 2 ==> key !in b.keys && forall i :: 0 <= i < |b.kids| ==> HeldLow(b.kids[i], h - 1, key)
  }

  // A node whose keys and kids all come from such nodes is one of them.
  lemma LowFrom(c: Tree, h: nat, key: int, keys: seq<int>, kids: seq<Tree>)
    requires forall k :: k in c.keys ==> k in keys
    requires forall x :: x in c.kids ==> x in kids
    requires h >= 2 ==> key !in keys && forall x :: x in kids ==> HeldLow(x, h - 1, key)
    ensures HeldLow(c, h, key)
  {
    forall i | 0 <= i < |c.kids| && h >= 2 ensures HeldLow(c.kids[i], h - 1, key) {
      assert c.kids[i] in c.kids;
    }
  }

  // The kid that a refilled node sends the deletion into.
  predicate IsEntered(b: Tree, i: nat, c: Tree)
    requires Internal(b) && i <= |b.keys|
  {
    || c == b.kids[i]
    || (i < |b.keys| && c == PushBack(b.kids[i], b.keys[i], b.kids[i + 1]))
    || (i > 0 && c == PushFront(b.kids[i - 1], b.keys[i - 1], b.kids[i]))
    || (i < |b.keys| && c == MergedKid(b, i))
    || (i > 0 && c == MergedKid(b, i - 1))
  }

  lemma RefillEnters(t: int, b: Tree, i: nat, key: int)
    requires t >= 2 && Internal(b) && i <= |b.keys| && b.keys != []
    ensures var next := Refill(t, b, i, key);
      !next.Done? && next.i < |next.b.kids| && IsEntered(b, i, next.b.kids[next.i])
  {
    hide PushBack, PushFront, PopFirst, PopLast, MergedKid;
  }

  lemma RefillLow(t: int, b: Tree, i: nat, h: nat, key: int)
    requires t >= 2 && h >= 2 && Shape(t, b, h, |b.keys|) && i <= |b.keys| && b.keys != [] && HeldLow(b, h, key)
    requires TurnFits(t, b, h, Refill(t, b, i, key)) && !Refill(t, b, i, key).Done?
    ensures var next := Refill(t, b, i, key); HeldLow(next.b.kids[next.i], h - 1, key)
  {
    hide Refill, HeldLow;
    RefillEnters(t, b, i, key);
    var e, c := Refill(t, b, i, key).b.kids[Refill(t, b, i, key).i], b.kids[i];
    LowKid(b, i, h, key);
    if i < |b.keys| {
      var r := b.kids[i + 1];
      LowKid(b, i + 1, h, key);
      if e == PushBack(c, b.keys[i], r) || e == MergedKid(b, i) {
        LowFrom(e, h - 1, key, c.keys + b.keys + r.keys, c.kids + r.kids);
      }
    }
    if i > 0 {
      var l := b.kids[i - 1];
      LowKid(b, i - 1, h, key);
      if e == PushFront(l, b.keys[i - 1], c) || e == MergedKid(b, i - 1) {
        LowFrom(e, h - 1, key, l.keys + b.keys + c.keys, l.kids + c.kids);
      }
    }
  }

  lemma LowKid(b: Tree, i: nat, h: nat, key: int)
    requires h >= 2 && HeldLow(b, h, key) && i < |b.kids|
    ensures key !in b.keys
    ensures h - 1 >= 2 ==> key !in b.kids[i].keys && forall x :: x in b.kids[i].kids ==> HeldLow(x, h - 2, key)
    ensures HeldLow(b.kids[i], h - 1, key)
  {
  }

  // Such a key is always replaced, if at all, from a leaf; so its deletion keeps the order.
  lemma {:induction false} HeldLowDrawsFromLeaf(t: int, h: nat, b: Tree, key: int, top: bool)
    requires t >= 2 && Enterable(t, b, h, top) && HeldLow(b, h, key)
    ensures DrawsFromLeaf(t, h, b, key, top)
    decreases h
  {
    hide Refill, Found;
    if h == 0 {
      TurnShape(t, b, h, top, key);
    } else {
      DeleteUnfolds(t, h, b, key, top);
      var i, next := Idx(b.keys, key), Turn(t, b, key);
      var c := next.b.kids[next.i];
      if h == 1 {
        TrivialBelow(t, c, next.k);
      } else {
        ShapeMin(t, b, h, if top then 1 else t, |b.keys|);
        assert !(i < |b.keys| && b.keys[i] == key);
        RefillInto(t, b, i, key);
        RefillLow(t, b, i, h, key);
        HeldLowDrawsFromLeaf(t, h - 1, c, key, false);
      }
    }
  }

  lemma TrivialBelow(t: int, c: Tree, k: int)
    requires t >= 2 && Enterable(t, c, 0, false)
    ensures DrawsFromLeaf(t, 0, c, k, false)
  {
    TurnShape(t, c, 0, false, k);
  }
}
