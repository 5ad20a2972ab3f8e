// B-trees of minimum degree t as values: occupancy, depth, in-order content, and the
// single-pass insertion and deletion of btree/btree.cpp.

module BtModel {

  // A leaf has no kids.
  datatype Tree = Node(keys: seq<int>, kids: seq<Tree>)

  // Every node holds at least `min` (below the top: t - 1) and at most 2t - 1 keys, and all
  // leaves are at depth `h`.
  ghost predicate Shape(t: int, b: Tree, h: nat, min: int)
    decreases h
  {
    && min <= |b.keys| <= 2 * t - 1
    && (h == 0 <==> b.kids == [])
    && (h > 0 ==> Internal(b))
    && (h > 0 ==> forall i :: 0 <= i < |b.kids| ==> Shape(t, b.kids[i], h - 1, t - 1))
  }

  // ---------- In-order content ----------

  predicate Internal(b: Tree) {
    |b.kids| == |b.keys| + 1
  }

  function Flat(b: Tree): seq<int>
    decreases b, 0
  {
    if Internal(b) then Front(b.keys, b.kids[..|b.keys|]) + Flat(b.kids[|b.keys|]) else b.keys
  }

  lemma FlatDef(b: Tree)
    requires Internal(b)
    ensures Flat(b) == Front(b.keys, b.kids[..|b.keys|]) + Flat(b.kids[|b.keys|])
  {
  }

  // Kids, each followed by its key; and keys, each followed by its kid.
  function Front(keys: seq<int>, kids: seq<Tree>): seq<int>
    requires |keys| == |kids|
    decreases kids, 1
  {
    if keys == [] then [] else Flat(kids[0]) + [keys[0]] + Front(keys[1..], kids[1..])
  }

  function Back(keys: seq<int>, kids: seq<Tree>): seq<int>
    requires |keys| == |kids|
  {
    if keys == [] then [] else [keys[0]] + Flat(kids[0]) + Back(keys[1..], kids[1..])
  }

  lemma {:induction false} FrontConcat(k1: seq<int>, c1: seq<Tree>, k2: seq<int>, c2: seq<Tree>)
    requires |k1| == |c1| && |k2| == |c2|
    ensures Front(k1 + k2, c1 + c2) == Front(k1, c1) + Front(k2, c2)
  {
    if k1 == [] {
      assert k1 + k2 == k2 && c1 + c2 == c2;
    } else {
      assert (k1 + k2)[1..] == k1[1..] + k2 && (c1 + c2)[1..] == c1[1..] + c2;
      FrontConcat(k1[1..], c1[1..], k2, c2);
    }
  }

  lemma {:induction false} BackConcat(k1: seq<int>, c1: seq<Tree>, k2: seq<int>, c2: seq<Tree>)
    requires |k1| == |c1| && |k2| == |c2|
    ensures Back(k1 + k2, c1 + c2) == Back(k1, c1) + Back(k2, c2)
  {
    if k1 == [] {
      assert k1 + k2 == k2 && c1 + c2 == c2;
    } else {
      assert (k1 + k2)[1..] == k1[1..] + k2 && (c1 + c2)[1..] == c1[1..] + c2;
      BackConcat(k1[1..], c1[1..], k2, c2);
    }
  }

  lemma {:induction false} FrontIsBack(keys: seq<int>, kids: seq<Tree>)
    requires |kids| == |keys| + 1
    ensures Front(keys, kids[..|keys|]) + Flat(kids[|keys|]) == Flat(kids[0]) + Back(keys, kids[1..])
  {
    if keys == [] {
      assert Flat(kids[0]) + Back(keys, kids[1..]) == Flat(kids[0]) == Front(keys, kids[..0]) + Flat(kids[0]);
    } else {
      var n := |keys|;
      FrontIsBack(keys[1..], kids[1..]);
      assert kids[..n][1..] == kids[1..][..n - 1];
      Assoc3(Flat(kids[0]) + [keys[0]], Front(keys[1..], kids[1..][..n - 1]), Flat(kids[n]));
      Assoc4(Flat(kids[0]), [keys[0]], Flat(kids[1]), Back(keys[1..], kids[1..][1..]));
    }
  }

  lemma Assoc3(a: seq<int>, b: seq<int>, c: seq<int>)
    ensures a + b + c == a + (b + c)
  {
  }

  lemma Assoc4(a: seq<int>, b: seq<int>, c: seq<int>, d: seq<int>)
    ensures (a + b) + (c + d) == a + (b + c + d)
  {
  }

  // What lies left and right of kid `i`.
  function Before(b: Tree, i: nat): seq<int>
    requires i <= |b.keys| && Internal(b)
  {
    Front(b.keys[..i], b.kids[..i])
  }

  function After(b: Tree, i: nat): seq<int>
    requires i <= |b.keys| && Internal(b)
  {
    Back(b.keys[i..], b.kids[i + 1..])
  }

  lemma FlatAt(b: Tree, i: nat)
    requires Internal(b) && i <= |b.keys|
    ensures Flat(b) == Before(b, i) + Flat(b.kids[i]) + After(b, i)
  {
    hide Front, Back, Flat;
    FlatDef(b);
    var n := |b.keys|;
    assert b.keys == b.keys[..i] + b.keys[i..] && b.kids[..n] == b.kids[..i] + b.kids[i..n];
    FrontConcat(b.keys[..i], b.kids[..i], b.keys[i..], b.kids[i..n]);
    assert b.kids[i..][..n - i] == b.kids[i..n] && b.kids[i..][1..] == b.kids[i + 1..];
    FrontIsBack(b.keys[i..], b.kids[i..]);
    Assoc3(Before(b, i), Front(b.keys[i..], b.kids[i..n]), Flat(b.kids[n]));
    Assoc3(Before(b, i), Flat(b.kids[i]), After(b, i));
  }

  // Kid `i` is replaced, and nothing else.
  function WithKid(b: Tree, i: nat, c: Tree): Tree
    requires i < |b.kids|
  {
    Node(b.keys, b.kids[i := c])
  }

  lemma FlatWithKid(b: Tree, i: nat, c: Tree)
    requires Internal(b) && i <= |b.keys|
    ensures Flat(WithKid(b, i, c)) == Before(b, i) + Flat(c) + After(b, i)
  {
    hide Front, Back, Flat;
    var b' := WithKid(b, i, c);
    FlatAt(b', i);
    assert b'.kids[..i] == b.kids[..i] && b'.kids[i + 1..] == b.kids[i + 1..];
  }

  // ---------- Order ----------

  ghost predicate Sorted(s: seq<int>) {
    s != [] ==> AllGe(s[1..], s[0]) && Sorted(s[1..])
  }

  ghost predicate AllGe(s: seq<int>, k: int) {
    forall x :: x in s ==> k <= x
  }

  ghost predicate AllLe(s: seq<int>, k: int) {
    forall x :: x in s ==> x <= k
  }

  ghost predicate LeAll(a: seq<int>, b: seq<int>) {
    forall x, y :: x in a && y in b ==> x <= y
  }

  lemma {:induction false} SortedConcat(a: seq<int>, b: seq<int>)
    ensures Sorted(a + b) <==> Sorted(a) && Sorted(b) && LeAll(a, b)
  {
    if a == [] {
      assert a + b == b;
    } else {
      assert (a + b)[0] == a[0] && (a + b)[1..] == a[1..] + b && a == [a[0]] + a[1..];
      assert a[0] in a && forall x :: x in a <==> x == a[0] || x in a[1..];
      SortedConcat(a[1..], b);
      assert forall x :: x in a[1..] + b <==> x in a[1..] || x in b;
      assert AllGe(a[1..] + b, a[0]) <==> AllGe(a[1..], a[0]) && AllGe(b, a[0]);
    }
  }

  lemma SortedThree(a: seq<int>, b: seq<int>, c: seq<int>)
    ensures Sorted(a + b + c) <==>
      Sorted(a) && Sorted(b) && Sorted(c) && LeAll(a, b) && LeAll(b, c) && LeAll(a, c)
  {
    SortedConcat(a, b);
    SortedConcat(a + b, c);
    assert forall x :: x in a + b <==> x in a || x in b;
  }

  // ---------- Splitting a full kid ----------

  function LeftHalf(t: int, y: Tree): Tree
    requires t >= 1 && |y.keys| == 2 * t - 1
  {
    Node(y.keys[..t - 1], if |y.kids| < t then [] else y.kids[..t])
  }

  function RightHalf(t: int, y: Tree): Tree
    requires t >= 1 && |y.keys| == 2 * t - 1
  {
    Node(y.keys[t..], if |y.kids| < t then [] else y.kids[t..])
  }

  function Split(t: int, x: Tree, i: nat): Tree
    requires t >= 1 && i < |x.kids| && i <= |x.keys| && |x.kids[i].keys| == 2 * t - 1
  {
    var y := x.kids[i];
    Node(x.keys[..i] + [y.keys[t - 1]] + x.keys[i..],
         x.kids[..i] + [LeftHalf(t, y), RightHalf(t, y)] + x.kids[i + 1..])
  }

  lemma FlatHalves(t: int, y: Tree)
    requires t >= 1 && |y.keys| == 2 * t - 1 && (y.kids == [] || |y.kids| == 2 * t)
    ensures Flat(y) == Flat(LeftHalf(t, y)) + [y.keys[t - 1]] + Flat(RightHalf(t, y))
  {
    var l, r, k := LeftHalf(t, y), RightHalf(t, y), y.keys[t - 1];
    assert y.keys == l.keys + [k] + r.keys;
    if y.kids != [] {
      JoinFlat(l, k, r);
      assert y.kids == l.kids + r.kids;
    }
  }

  // A key followed by all the kids of a node.
  lemma BackCons(k: int, r: Tree)
    requires Internal(r)
    ensures Back([k] + r.keys, r.kids) == [k] + Flat(r)
  {
    hide Front;
    FrontIsBack(r.keys, r.kids);
    assert ([k] + r.keys)[1..] == r.keys;
    Assoc3([k], Flat(r.kids[0]), Back(r.keys, r.kids[1..]));
  }

  // Two internal nodes joined by a key.
  lemma JoinFlat(l: Tree, k: int, r: Tree)
    requires Internal(l) && Internal(r)
    ensures Flat(Node(l.keys + [k] + r.keys, l.kids + r.kids)) == Flat(l) + [k] + Flat(r)
  {
    hide Front, Back, Flat;
    var b, n := Node(l.keys + [k] + r.keys, l.kids + r.kids), |l.keys|;
    FlatAt(b, n);
    assert b.keys[..n] == l.keys && b.kids[..n] == l.kids[..n] && b.kids[n] == l.kids[n];
    assert b.keys[n..] == [k] + r.keys && b.kids[n + 1..] == r.kids;
    BackCons(k, r);
    FlatDef(l);
    Assoc3(Before(b, n), Flat(l.kids[n]), [k] + Flat(r));
    Assoc3(Flat(l), [k], Flat(r));
  }

  lemma FlatSplit(t: int, x: Tree, i: nat)
    requires t >= 1 && Internal(x) && i <= |x.keys|
    requires |x.kids[i].keys| == 2 * t - 1 && (x.kids[i].kids == [] || |x.kids[i].kids| == 2 * t)
    ensures Flat(Split(t, x, i)) == Flat(x)
    ensures Before(Split(t, x, i), i) == Before(x, i)
    ensures After(Split(t, x, i), i) == [x.kids[i].keys[t - 1]] + Flat(RightHalf(t, x.kids[i])) + After(x, i)
    ensures Before(Split(t, x, i), i + 1) == Before(x, i) + Flat(LeftHalf(t, x.kids[i])) + [x.kids[i].keys[t - 1]]
    ensures After(Split(t, x, i), i + 1) == After(x, i)
  {
    hide Front, Back, Flat;
    var s, y := Split(t, x, i), x.kids[i];
    var l, r, m := LeftHalf(t, y), RightHalf(t, y), y.keys[t - 1];
    TwoForOne(x, s, i, l, m, r);
    FlatHalves(t, y);
    FlatAt(x, i);
    FlatAt(s, i);
    Regroup(Before(x, i), Flat(l), [m], Flat(r), After(x, i));
  }

  lemma Regroup(a: seq<int>, b: seq<int>, c: seq<int>, d: seq<int>, e: seq<int>)
    ensures a + b + (c + d + e) == a + (b + c + d) + e
    ensures a + b + c + d + e == a + (b + c + d) + e
  {
  }

  // Kid `i` of `x` gives way to two kids with a key between them (or, read backwards, two
  // neighbours become one).
  lemma TwoForOne(x: Tree, s: Tree, i: nat, l: Tree, m: int, r: Tree)
    requires Internal(x) && i <= |x.keys|
    requires s == Node(x.keys[..i] + [m] + x.keys[i..], x.kids[..i] + [l, r] + x.kids[i + 1..])
    ensures Before(s, i) == Before(x, i) && After(s, i) == [m] + Flat(r) + After(x, i)
    ensures Before(s, i + 1) == Before(x, i) + Flat(l) + [m] && After(s, i + 1) == After(x, i)
  {
    hide Front, Back, Flat;
    assert s.keys[..i] == x.keys[..i] && s.kids[..i] == x.kids[..i];
    assert s.keys[..i + 1] == x.keys[..i] + [m] && s.kids[..i + 1] == x.kids[..i] + [l];
    FrontConcat(x.keys[..i], x.kids[..i], [m], [l]);
    OneFront(m, l);
    assert s.keys[i + 1..] == x.keys[i..] && s.kids[i + 2..] == x.kids[i + 1..];
    assert s.keys[i..] == [m] + x.keys[i..] && s.kids[i + 1..] == [r] + x.kids[i + 1..];
    BackConcat([m], [r], x.keys[i..], x.kids[i + 1..]);
    OneBack(m, r);
    Assoc3(Before(x, i), Flat(l), [m]);
  }

  lemma OneFront(m: int, l: Tree)
    ensures Front([m], [l]) == Flat(l) + [m]
  {
  }

  lemma OneBack(m: int, r: Tree)
    ensures Back([m], [r]) == [m] + Flat(r)
  {
  }

  lemma ShapeHalves(t: int, y: Tree, h: nat)
    requires t >= 2 && Shape(t, y, h, t - 1) && |y.keys| == 2 * t - 1
    ensures y.kids == [] || |y.kids| == 2 * t
    ensures Shape(t, LeftHalf(t, y), h, t - 1) && Shape(t, RightHalf(t, y), h, t - 1)
  {
  }

  lemma ShapeSplit(t: int, x: Tree, i: nat, h: nat, min: int)
    requires t >= 2 && h > 0 && Shape(t, x, h, min) && |x.keys| < 2 * t - 1
    requires i < |x.kids| && |x.kids[i].keys| == 2 * t - 1
    ensures x.kids[i].kids == [] || |x.kids[i].kids| == 2 * t
    ensures Shape(t, Split(t, x, i), h, min) && |Split(t, x, i).keys| == |x.keys| + 1
  {
    ShapeHalves(t, x.kids[i], h - 1);
    var s := Split(t, x, i);
    forall j | 0 <= j < |s.kids| ensures Shape(t, s.kids[j], h - 1, t - 1) {
      if j < i {
        assert s.kids[j] == x.kids[j];
      } else if j > i + 1 {
        assert s.kids[j] == x.kids[j - 1];
      }
    }
  }

  lemma ShapeWithKid(t: int, b: Tree, i: nat, c: Tree, h: nat, min: int)
    requires h > 0 && Shape(t, b, h, min) && i < |b.kids| && Shape(t, c, h - 1, t - 1)
    ensures Shape(t, WithKid(b, i, c), h, min)
  {
  }

  // ---------- Insertion ----------

  // Scanning from the right for the last key that is not larger.
  function Slot(keys: seq<int>, k: int): (i: nat)
    ensures i <= |keys|
  {
    if keys == [] || keys[|keys| - 1] <= k then |keys| else Slot(keys[..|keys| - 1], k)
  }

  lemma {:induction false} SlotMeaning(keys: seq<int>, k: int)
    ensures var i := Slot(keys, k);
      (i > 0 ==> keys[i - 1] <= k) && forall j :: i <= j < |keys| ==> k < keys[j]
  {
    if keys != [] && k < keys[|keys| - 1] { SlotMeaning(keys[..|keys| - 1], k); }
  }

  // The node in which insertion goes on, after splitting a full kid, and the kid it enters.
  function SlotNode(t: int, x: Tree, k: int): Tree
    requires t >= 2 && Internal(x)
  {
    var i := Slot(x.keys, k);
    if |x.kids[i].keys| == 2 * t - 1 then Split(t, x, i) else x
  }

  function SlotKid(t: int, x: Tree, k: int): (j: nat)
    requires t >= 2 && Internal(x)
    ensures j < |SlotNode(t, x, k).kids|
  {
    var i := Slot(x.keys, k);
    if |x.kids[i].keys| == 2 * t - 1 && k > SlotNode(t, x, k).keys[i] then i + 1 else i
  }

  // The kid that insertion enters is never full.
  lemma SlotShape(t: int, x: Tree, h: nat, min: int, k: int)
    requires t >= 2 && h > 0 && Shape(t, x, h, min) && |x.keys| < 2 * t - 1
    ensures Internal(x)
    ensures var x', j := SlotNode(t, x, k), SlotKid(t, x, k);
      && Shape(t, x', h, min) && |x.keys| <= |x'.keys| <= |x.keys| + 1
      && Shape(t, x'.kids[j], h - 1, t - 1) && |x'.kids[j].keys| < 2 * t - 1
  {
    var i := Slot(x.keys, k);
    if |x.kids[i].keys| == 2 * t - 1 {
      ShapeSplit(t, x, i, h, min);
      ShapeHalves(t, x.kids[i], h - 1);
    }
  }

  function InsertNonfull(t: int, h: nat, x: Tree, k: int): Tree
    requires t >= 2 && Shape(t, x, h, 0) && |x.keys| < 2 * t - 1
    decreases h
  {
    if h == 0 then
      var i := Slot(x.keys, k);
      Node(x.keys[..i] + [k] + x.keys[i..], [])
    else
      SlotShape(t, x, h, 0, k);
      var x', j := SlotNode(t, x, k), SlotKid(t, x, k);
      WithKid(x', j, InsertNonfull(t, h - 1, x'.kids[j], k))
  }

  lemma HeadBound(s: seq<int>, k: int)
    requires Sorted(s) && (s != [] ==> k <= s[0])
    ensures AllGe(s, k)
  {
    if s != [] { assert forall x :: x in s <==> x == s[0] || x in s[1..]; }
  }

  lemma LastBound(s: seq<int>, k: int)
    requires Sorted(s) && (s != [] ==> s[|s| - 1] <= k)
    ensures AllLe(s, k)
  {
    if s != [] {
      var p, x := s[..|s| - 1], s[|s| - 1];
      assert s == p + [x];
      SortedConcat(p, [x]);
      assert x in [x] && forall y :: y in s <==> y in p || y == x;
    }
  }

  // Every middle part of a sorted sequence is sorted; what replaces it must stay in bounds.
  lemma SortedReplace(a: seq<int>, c: seq<int>, c': seq<int>, b: seq<int>, k: int)
    requires Sorted(a + c + b) && Sorted(c') && AllLe(a, k) && AllGe(b, k)
    requires forall x :: x in c' ==> x in c || x == k
    ensures Sorted(a + c' + b)
  {
    hide Sorted;
    SortedThree(a, c, b);
    SortedThree(a, c', b);
  }

  // In a sorted node the neighbouring keys bound everything on either side of a kid.
  lemma KeyBounds(b: Tree, j: nat, k: int)
    requires Internal(b) && j <= |b.keys| && Sorted(Flat(b))
    ensures Sorted(Flat(b.kids[j]))
    ensures (j > 0 ==> b.keys[j - 1] <= k) ==> AllLe(Before(b, j), k)
    ensures (j < |b.keys| ==> k <= b.keys[j]) ==> AllGe(After(b, j), k)
  {
    hide Flat, Sorted;
    FlatAt(b, j);
    SortedThree(Before(b, j), Flat(b.kids[j]), After(b, j));
    if j > 0 {
      LastOfFront(b, j);
      if b.keys[j - 1] <= k { LastBound(Before(b, j), k); }
    }
    if j < |b.keys| && k <= b.keys[j] { HeadBound(After(b, j), k); }
  }

  lemma LastOfFront(b: Tree, j: nat)
    requires Internal(b) && 0 < j <= |b.keys|
    ensures Before(b, j) == Before(b, j - 1) + Flat(b.kids[j - 1]) + [b.keys[j - 1]]
  {
    hide Front, Back, Flat;
    assert b.keys[..j] == b.keys[..j - 1] + [b.keys[j - 1]] && b.kids[..j] == b.kids[..j - 1] + [b.kids[j - 1]];
    FrontConcat(b.keys[..j - 1], b.kids[..j - 1], [b.keys[j - 1]], [b.kids[j - 1]]);
    OneFront(b.keys[j - 1], b.kids[j - 1]);
    Assoc3(Before(b, j - 1), Flat(b.kids[j - 1]), [b.keys[j - 1]]);
  }

  lemma SplitKeys(t: int, x: Tree, i: nat)
    requires t >= 1 && Internal(x) && i <= |x.keys| && |x.kids[i].keys| == 2 * t - 1
    ensures var s := Split(t, x, i);
      && Internal(s) && |s.keys| == |x.keys| + 1 && s.keys[i] == x.kids[i].keys[t - 1]
      && (i > 0 ==> s.keys[i - 1] == x.keys[i - 1]) && (i < |x.keys| ==> s.keys[i + 1] == x.keys[i])
  {
  }

  lemma SplitKeepsFlat(t: int, x: Tree, i: nat, h: nat, min: int)
    requires t >= 2 && h > 0 && Shape(t, x, h, min) && i <= |x.keys| && |x.kids[i].keys| == 2 * t - 1
    ensures Flat(Split(t, x, i)) == Flat(x)
  {
    hide Front, Back, Flat;
    ShapeHalves(t, x.kids[i], h - 1);
    FlatSplit(t, x, i);
  }

  // The keys next to kid `j` leave room for `k` in that kid.
  ghost predicate Slotted(x: Tree, j: nat, k: int) {
    && Internal(x) && j <= |x.keys|
    && (j > 0 ==> x.keys[j - 1] <= k) && (j < |x.keys| ==> k <= x.keys[j])
  }

  lemma SplitSlotted(t: int, x: Tree, i: nat, k: int)
    requires t >= 2 && Internal(x) && i <= |x.keys| && |x.kids[i].keys| == 2 * t - 1
    requires (i > 0 ==> x.keys[i - 1] <= k) && (i < |x.keys| ==> k <= x.keys[i])
    ensures Slotted(Split(t, x, i), if k > Split(t, x, i).keys[i] then i + 1 else i, k)
  {
    SplitKeys(t, x, i);
  }

  lemma SlotKeys(t: int, x: Tree, h: nat, min: int, k: int)
    requires t >= 2 && h > 0 && Shape(t, x, h, min) && |x.keys| < 2 * t - 1
    ensures Slotted(SlotNode(t, x, k), SlotKid(t, x, k), k)
    ensures Flat(SlotNode(t, x, k)) == Flat(x)
  {
    hide Flat, Split;
    var i := Slot(x.keys, k);
    SlotMeaning(x.keys, k);
    if |x.kids[i].keys| == 2 * t - 1 {
      SplitKeepsFlat(t, x, i, h, min);
      SplitSlotted(t, x, i, k);
    }
  }

  lemma {:induction false} InsertNonfullShape(t: int, h: nat, x: Tree, k: int, min: int)
    requires t >= 2 && min >= 0 && Shape(t, x, h, min) && |x.keys| < 2 * t - 1 && Shape(t, x, h, 0)
    ensures Shape(t, InsertNonfull(t, h, x, k), h, min)
    decreases h
  {
    hide SlotNode, SlotKid;
    if h > 0 {
      SlotShape(t, x, h, min, k);
      var x', j := SlotNode(t, x, k), SlotKid(t, x, k);
      InsertNonfullShape(t, h - 1, x'.kids[j], k, t - 1);
      ShapeWithKid(t, x', j, InsertNonfull(t, h - 1, x'.kids[j], k), h, min);
    }
  }

  // One occurrence of `k` more, and the order survives.
  ghost predicate Gains(s: seq<int>, s': seq<int>, k: int) {
    multiset(s') == multiset(s) + multiset{k} && (Sorted(s) ==> Sorted(s'))
  }

  lemma {:induction false} InsertNonfullContent(t: int, h: nat, x: Tree, k: int)
    requires t >= 2 && Shape(t, x, h, 0) && |x.keys| < 2 * t - 1
    ensures Gains(Flat(x), Flat(InsertNonfull(t, h, x, k)), k)
    decreases h, 1
  {
    hide Front, Back, Split, SlotNode, SlotKid;
    if h == 0 {
      var i := Slot(x.keys, k);
      SlotMeaning(x.keys, k);
      LeafInsert(x.keys, i, k);
    } else {
      SlotShape(t, x, h, 0, k);
      SlotKeys(t, x, h, 0, k);
      InsertBelow(t, h, SlotNode(t, x, k), SlotKid(t, x, k), k);
    }
  }

  lemma {:induction false} InsertBelow(t: int, h: nat, x: Tree, j: nat, k: int)
    requires t >= 2 && h > 0 && Slotted(x, j, k)
    requires Shape(t, x.kids[j], h - 1, 0) && |x.kids[j].keys| < 2 * t - 1
    ensures Gains(Flat(x), Flat(WithKid(x, j, InsertNonfull(t, h - 1, x.kids[j], k))), k)
    decreases h, 0
  {
    hide InsertNonfull, Flat;
    InsertNonfullContent(t, h - 1, x.kids[j], k);
    InsertStep(x, j, InsertNonfull(t, h - 1, x.kids[j], k), k);
  }

  // Kid `j` of `x` gains one `k`, and its neighbouring keys allow that.
  lemma InsertStep(x: Tree, j: nat, c': Tree, k: int)
    requires Slotted(x, j, k)
    requires Gains(Flat(x.kids[j]), Flat(c'), k)
    ensures Gains(Flat(x), Flat(WithKid(x, j, c')), k)
  {
    hide Front, Back, Flat, Sorted;
    FlatAt(x, j);
    FlatWithKid(x, j, c');
    GrownMiddle(Before(x, j), Flat(x.kids[j]), Flat(c'), After(x, j), k);
    if Sorted(Flat(x)) { KeyBounds(x, j, k); }
  }

  lemma SortedInsert(a: seq<int>, k: int, b: seq<int>)
    requires Sorted(a + b)
    requires a != [] ==> a[|a| - 1] <= k
    requires AllGe(b, k)
    ensures Sorted(a + [k] + b)
  {
    SortedConcat(a, b);
    LastBound(a, k);
    assert Sorted([k]) && forall y :: y in [k] <==> y == k;
    SortedThree(a, [k], b);
  }

  lemma LeafInsert(s: seq<int>, i: nat, k: int)
    requires i <= |s| && (i > 0 ==> s[i - 1] <= k) && forall j :: i <= j < |s| ==> k < s[j]
    ensures multiset(s[..i] + [k] + s[i..]) == multiset(s) + multiset{k}
    ensures Sorted(s) ==> Sorted(s[..i] + [k] + s[i..])
  {
    hide Sorted;
    assert s == s[..i] + s[i..];
    MultisetInsert(s[..i], k, s[i..]);
    if Sorted(s) {
      assert AllGe(s[i..], k);
      SortedInsert(s[..i], k, s[i..]);
    }
  }

  lemma MultisetInsert(a: seq<int>, k: int, b: seq<int>)
    ensures multiset(a + [k] + b) == multiset(a + b) + multiset{k}
  {
  }

  // The middle part gains one `k`.
  lemma GrownMiddle(a: seq<int>, c: seq<int>, c': seq<int>, b: seq<int>, k: int)
    requires multiset(c') == multiset(c) + multiset{k}
    ensures multiset(a + c' + b) == multiset(a + c + b) + multiset{k}
    ensures Sorted(a + c + b) && Sorted(c') && AllLe(a, k) && AllGe(b, k) ==> Sorted(a + c' + b)
  {
    hide Sorted;
    if Sorted(a + c + b) && Sorted(c') && AllLe(a, k) && AllGe(b, k) {
      assert forall x :: x in c' ==> x in multiset(c');
      SortedReplace(a, c, c', b, k);
    }
  }

  // btree_insert: a full root is first split under a new root.
  function Insert(t: int, h: nat, root: Tree, k: int): Tree
    requires t >= 2 && Shape(t, root, h, if h == 0 then 0 else 1)
  {
    if |root.keys| == 2 * t - 1 then
      RootSplitShape(t, h, root);
      var top := Split(t, Node([], [root]), 0);
      var i := if top.keys[0] < k then 1 else 0;
      WithKid(top, i, InsertNonfull(t, h, top.kids[i], k))
    else
      RootShape(t, root, h, 0);
      InsertNonfull(t, h, root, k)
  }

  lemma RootShape(t: int, root: Tree, h: nat, min: int)
    requires Shape(t, root, h, min) || exists m :: min <= m && Shape(t, root, h, m)
    requires min >= 0
    ensures Shape(t, root, h, 0)
  {
  }

  lemma RootSplitShape(t: int, h: nat, root: Tree)
    requires t >= 2 && Shape(t, root, h, if h == 0 then 0 else 1) && |root.keys| == 2 * t - 1
    ensures root.kids == [] || |root.kids| == 2 * t
    ensures var top := Split(t, Node([], [root]), 0);
      && Shape(t, top, h + 1, 1) && |top.keys| == 1
      && Shape(t, top.kids[0], h, t - 1) && Shape(t, top.kids[1], h, t - 1)
      && |top.kids[0].keys| == |top.kids[1].keys| == t - 1
  {
    assert Shape(t, root, h, t - 1);
    ShapeHalves(t, root, h);
  }

  lemma ShapeMin(t: int, b: Tree, h: nat, m: int, m': int)
    requires Shape(t, b, h, m) && m' <= |b.keys|
    ensures Shape(t, b, h, m')
  {
  }

  // Insertion into an internal node, unfolded.
  lemma InsertUnfolds(t: int, h: nat, x: Tree, k: int)
    requires t >= 2 && h > 0 && Shape(t, x, h, 0) && |x.keys| < 2 * t - 1
    ensures Internal(x)
    ensures var x', j := SlotNode(t, x, k), SlotKid(t, x, k);
      && Shape(t, x'.kids[j], h - 1, 0) && |x'.kids[j].keys| < 2 * t - 1
      && InsertNonfull(t, h, x, k) == WithKid(x', j, InsertNonfull(t, h - 1, x'.kids[j], k))
  {
    SlotShape(t, x, h, 0, k);
    ShapeMin(t, SlotNode(t, x, k).kids[SlotKid(t, x, k)], h - 1, t - 1, 0);
  }

  // Insertion into a full root and into any other, unfolded.
  lemma InsertFull(t: int, h: nat, b: Tree, k: int)
    requires t >= 2 && Shape(t, b, h, if h == 0 then 0 else 1) && |b.keys| == 2 * t - 1
    ensures var top := Split(t, Node([], [b]), 0);
      && |top.keys| == 1 && |top.kids| == 2
      && (forall i: nat :: i < 2 ==> Shape(t, top.kids[i], h, 0) && |top.kids[i].keys| < 2 * t - 1)
      && var i := if top.keys[0] < k then 1 else 0;
        Insert(t, h, b, k) == WithKid(top, i, InsertNonfull(t, h, top.kids[i], k))
  {
    hide InsertNonfull, Split;
    RootSplitShape(t, h, b);
    hide Shape;
    var top := Split(t, Node([], [b]), 0);
    ShapeMin(t, top.kids[0], h, t - 1, 0);
    ShapeMin(t, top.kids[1], h, t - 1, 0);
  }

  lemma InsertNotFull(t: int, h: nat, b: Tree, k: int)
    requires t >= 2 && Shape(t, b, h, if h == 0 then 0 else 1) && |b.keys| != 2 * t - 1
    ensures Shape(t, b, h, 0) && |b.keys| < 2 * t - 1
    ensures Insert(t, h, b, k) == InsertNonfull(t, h, b, k)
  {
    RootShape(t, b, h, 0);
  }

  // What one insertion promises: shape, height, content and order.
  lemma InsertCorrect(t: int, h: nat, root: Tree, k: int)
    requires t >= 2 && Shape(t, root, h, if h == 0 then 0 else 1)
    ensures var r, h' := Insert(t, h, root, k), if |root.keys| == 2 * t - 1 then h + 1 else h;
      && Shape(t, r, h', 1)
      && Gains(Flat(root), Flat(r), k)
  {
    if |root.keys| == 2 * t - 1 {
      InsertFullRoot(t, h, root, k);
    } else {
      var min := if h == 0 then 0 else 1;
      InsertNonfullShape(t, h, root, k, min);
      InsertNonfullContent(t, h, root, k);
      if h == 0 { LeafGrows(t, root, k); }
    }
  }

  lemma LeafGrows(t: int, x: Tree, k: int)
    requires t >= 2 && Shape(t, x, 0, 0) && |x.keys| < 2 * t - 1
    ensures Shape(t, InsertNonfull(t, 0, x, k), 0, 1)
  {
  }

  lemma RootSlotted(t: int, h: nat, root: Tree, k: int)
    requires t >= 2 && Shape(t, root, h, if h == 0 then 0 else 1) && |root.keys| == 2 * t - 1
    ensures var top := Split(t, Node([], [root]), 0);
      Slotted(top, if k > top.keys[0] then 1 else 0, k) && Flat(top) == Flat(root)
  {
    var bare := Node([], [root]);
    RootSplitShape(t, h, root);
    FlatSplit(t, bare, 0);
    assert Flat(bare) == Flat(root);
    SplitSlotted(t, bare, 0, k);
  }

  lemma InsertFullRoot(t: int, h: nat, root: Tree, k: int)
    requires t >= 2 && Shape(t, root, h, if h == 0 then 0 else 1) && |root.keys| == 2 * t - 1
    ensures Shape(t, Insert(t, h, root, k), h + 1, 1)
    ensures Gains(Flat(root), Flat(Insert(t, h, root, k)), k)
  {
    hide Flat, InsertNonfull;
    var top := Split(t, Node([], [root]), 0);
    var i := if k > top.keys[0] then 1 else 0;
    RootSplitShape(t, h, root);
    RootSlotted(t, h, root, k);
    InsertUnderNewRoot(t, h, top, i, k);
  }

  lemma InsertUnderNewRoot(t: int, h: nat, top: Tree, i: nat, k: int)
    requires t >= 2 && Shape(t, top, h + 1, 1) && Slotted(top, i, k)
    requires Shape(t, top.kids[i], h, t - 1) && |top.kids[i].keys| == t - 1 && Shape(t, top.kids[i], h, 0)
    ensures Shape(t, WithKid(top, i, InsertNonfull(t, h, top.kids[i], k)), h + 1, 1)
    ensures Gains(Flat(top), Flat(WithKid(top, i, InsertNonfull(t, h, top.kids[i], k))), k)
  {
    hide InsertNonfull, Flat;
    InsertBelow(t, h + 1, top, i, k);
    InsertNonfullShape(t, h, top.kids[i], k, t - 1);
    ShapeWithKid(t, top, i, InsertNonfull(t, h, top.kids[i], k), h + 1, 1);
  }
}
