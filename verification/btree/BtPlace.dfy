// What insertion and deletion leave behind at one node: which key goes where, which kids change,
// and which do not.

module BtPlace {
  import opened BtModel
  import opened BtDelete

  // All kids but those from `i` to `j` are as before.
  predicate OthersKept(b: Tree, r: Tree, i: nat, j: nat) {
    && |r.kids| == |b.kids| && i <= j <= |b.kids|
    && forall k :: 0 <= k < |b.kids| && !(i <= k < j) ==> r.kids[k] == b.kids[k]
  }

  // The scan of a node's keys stops at `i`.
  predicate StopsAt(keys: seq<int>, key: int, i: nat) {
    i <= |keys| && (forall j :: 0 <= j < i ==> keys[j] < key) && (i < |keys| ==> key <= keys[i])
  }

  lemma {:induction false} StopIsIdx(keys: seq<int>, key: int, i: nat)
    requires StopsAt(keys, key, i)
    ensures Idx(keys, key) == i
  {
    if i > 0 { StopIsIdx(keys[1..], key, i - 1); }
  }

  // ---------- Deletion of a key of an internal node ----------

  // The key is replaced by the last key of its left kid if that kid can spare one, otherwise by
  // the first key of its right kid if that one can; otherwise it leaves the node with the merge
  // of the two. Only the kid that loses the key changes.
  lemma DeleteReplaces(t: int, h: nat, b: Tree, key: int, top: bool, i: nat)
    requires t >= 2 && h > 0 && Enterable(t, b, h, top)
    requires i < |b.keys| && b.keys[i] == key && StopsAt(b.keys, key, i)
    ensures Internal(b)
    ensures var r, l, s, n := Delete(t, h, b, key, top), b.kids[i].keys, b.kids[i + 1].keys, |b.keys|;
      if |l| >= t then r.keys == b.keys[i := l[|l| - 1]] && OthersKept(b, r, i, i + 1)
      else if |s| >= t then r.keys == b.keys[i := s[0]] && OthersKept(b, r, i + 1, i + 2)
      else n > 1 ==>
        && r.keys == b.keys[..i] + b.keys[i + 1..] && |r.kids| == n
        && r.kids[..i] == b.kids[..i] && r.kids[i + 1..] == b.kids[i + 2..]
  {
    hide Delete, Shape;
    Held(t, h, b, key, top, i);
  }

  // The turn that such a deletion takes.
  lemma Held(t: int, h: nat, b: Tree, key: int, top: bool, i: nat)
    requires t >= 2 && h > 0 && Enterable(t, b, h, top)
    requires i < |b.keys| && b.keys[i] == key && StopsAt(b.keys, key, i)
    ensures Internal(b) && |b.kids[i].keys| >= t - 1 && |b.kids[i + 1].keys| >= t - 1
    ensures var next := Found(t, b, i);
      && !next.Done? && next.i < |next.b.kids| && Enterable(t, next.b.kids[next.i], h - 1, false)
      && Delete(t, h, b, key, top) == Close(next.b, next.i, Delete(t, h - 1, next.b.kids[next.i], next.k, false))
  {
    hide Delete, Merge;
    StopIsIdx(b.keys, key, i);
    DeleteUnfolds(t, h, b, key, top);
    KidHas(t, b, h, i);
    KidHas(t, b, h, i + 1);
    assert Turn(t, b, key) == Found(t, b, i);
  }

  // What goes on below: the drawn key is deleted from the kid it was drawn from, ...
  lemma DeleteGoesLeft(t: int, h: nat, b: Tree, key: int, top: bool, i: nat)
    requires t >= 2 && h > 0 && Enterable(t, b, h, top)
    requires i < |b.keys| && b.keys[i] == key && StopsAt(b.keys, key, i) && |b.kids| == |b.keys| + 1
    requires |b.kids[i].keys| >= t
    ensures var r, c := Delete(t, h, b, key, top), b.kids[i];
      && Enterable(t, c, h - 1, false) && i < |r.kids|
      && r.kids[i] == Delete(t, h - 1, c, c.keys[|c.keys| - 1], false)
  {
    hide Delete;
    StopIsIdx(b.keys, key, i);
    DeleteUnfolds(t, h, b, key, top);
    assert Turn(t, b, key) == Found(t, b, i);
  }

  lemma DeleteGoesRight(t: int, h: nat, b: Tree, key: int, top: bool, i: nat)
    requires t >= 2 && h > 0 && Enterable(t, b, h, top)
    requires i < |b.keys| && b.keys[i] == key && StopsAt(b.keys, key, i) && |b.kids| == |b.keys| + 1
    requires |b.kids[i].keys| < t <= |b.kids[i + 1].keys|
    ensures var r, c := Delete(t, h, b, key, top), b.kids[i + 1];
      && Enterable(t, c, h - 1, false) && i + 1 < |r.kids|
      && r.kids[i + 1] == Delete(t, h - 1, c, c.keys[0], false)
  {
    hide Delete;
    StopIsIdx(b.keys, key, i);
    DeleteUnfolds(t, h, b, key, top);
    assert Turn(t, b, key) == Found(t, b, i);
  }

  // ... or the key itself from the kid it was merged into, which takes the place of a root that
  // had no other key.
  lemma DeleteGoesDown(t: int, h: nat, b: Tree, key: int, top: bool, i: nat)
    requires t >= 2 && h > 0 && Enterable(t, b, h, top)
    requires i < |b.keys| && b.keys[i] == key && StopsAt(b.keys, key, i) && |b.kids| == |b.keys| + 1
    requires |b.kids[i].keys| < t && |b.kids[i + 1].keys| < t
    ensures var r, l, s := Delete(t, h, b, key, top), b.kids[i], b.kids[i + 1];
      var c := Node(l.keys + [key] + s.keys, l.kids + s.kids);
      && Enterable(t, c, h - 1, false)
      && if |b.keys| == 1 then r == Delete(t, h - 1, c, key, false)
         else i < |r.kids| && r.kids[i] == Delete(t, h - 1, c, key, false)
  {
    hide Delete;
    StopIsIdx(b.keys, key, i);
    DeleteUnfolds(t, h, b, key, top);
    assert Turn(t, b, key) == Found(t, b, i);
  }

  // ---------- Deletion of a key that an internal node does not hold ----------

  // The first (or last) key of a donor has left it.
  predicate GaveFirst(c: Tree, c': Tree) {
    c.keys != [] && c'.keys == c.keys[1..] && c'.kids == if c.kids == [] then [] else c.kids[1..]
  }

  predicate GaveLast(c: Tree, c': Tree) {
    && c.keys != [] && c'.keys == c.keys[..|c.keys| - 1]
    && c'.kids == if c.kids == [] then [] else c.kids[..|c.kids| - 1]
  }

  // The turn that such a deletion takes.
  lemma Elsewhere(t: int, h: nat, b: Tree, key: int, top: bool, i: nat)
    requires t >= 2 && h > 0 && Enterable(t, b, h, top) && |b.kids| == |b.keys| + 1
    requires StopsAt(b.keys, key, i) && (i < |b.keys| ==> b.keys[i] != key)
    ensures b.keys != [] && |b.kids[i].keys| >= t - 1
    ensures var next := Refill(t, b, i, key);
      && !next.Done? && next.i < |next.b.kids| && Enterable(t, next.b.kids[next.i], h - 1, false)
      && Delete(t, h, b, key, top) == Close(next.b, next.i, Delete(t, h - 1, next.b.kids[next.i], next.k, false))
  {
    hide Delete, BorrowLeft, BorrowRight, Merge;
    StopIsIdx(b.keys, key, i);
    DeleteUnfolds(t, h, b, key, top);
    KidHas(t, b, h, i);
    assert Turn(t, b, key) == Refill(t, b, i, key);
  }

  // A kid that can spare a key is entered as it is; only that kid changes.
  lemma DeletePlain(t: int, h: nat, b: Tree, key: int, top: bool, i: nat)
    requires t >= 2 && h > 0 && Enterable(t, b, h, top) && |b.kids| == |b.keys| + 1
    requires StopsAt(b.keys, key, i) && (i < |b.keys| ==> b.keys[i] != key)
    requires |b.kids[i].keys| >= t
    ensures Enterable(t, b.kids[i], h - 1, false)
    ensures var r := Delete(t, h, b, key, top);
      r.keys == b.keys && OthersKept(b, r, i, i + 1) && r.kids[i] == Delete(t, h - 1, b.kids[i], key, false)
  {
    hide Delete, Shape;
    Elsewhere(t, h, b, key, top, i);
  }

  predicate Spares(t: int, b: Tree, i: int) {
    0 <= i < |b.kids| && |b.kids[i].keys| >= t
  }

  // A kid of t - 1 keys borrows from its right neighbour if that one can spare a key and is
  // larger than the left one; ...
  lemma DeleteBorrowsRight(t: int, h: nat, b: Tree, key: int, top: bool, i: nat)
    requires t >= 2 && h > 0 && Enterable(t, b, h, top) && |b.kids| == |b.keys| + 1
    requires StopsAt(b.keys, key, i) && (i < |b.keys| ==> b.keys[i] != key)
    requires |b.kids[i].keys| < t && Spares(t, b, i + 1) && (i > 0 ==> |b.kids[i + 1].keys| > |b.kids[i - 1].keys|)
    ensures var r := Delete(t, h, b, key, top);
      && r.keys == b.keys[i := b.kids[i + 1].keys[0]] && OthersKept(b, r, i, i + 2)
      && GaveFirst(b.kids[i + 1], r.kids[i + 1])
  {
    hide Delete, Shape;
    Elsewhere(t, h, b, key, top, i);
    assert Refill(t, b, i, key) == Into(BorrowRight(b, i), i, key);
  }

  // ... otherwise from its left neighbour if that one can spare a key; ...
  lemma DeleteBorrowsLeft(t: int, h: nat, b: Tree, key: int, top: bool, i: nat)
    requires t >= 2 && h > 0 && Enterable(t, b, h, top) && |b.kids| == |b.keys| + 1
    requires StopsAt(b.keys, key, i) && (i < |b.keys| ==> b.keys[i] != key)
    requires |b.kids[i].keys| < t && Spares(t, b, i - 1)
    requires i + 1 < |b.kids| ==> |b.kids[i + 1].keys| <= |b.kids[i - 1].keys|
    ensures var r, l := Delete(t, h, b, key, top), b.kids[i - 1];
      && r.keys == b.keys[i - 1 := l.keys[|l.keys| - 1]] && OthersKept(b, r, i - 1, i + 1)
      && GaveLast(l, r.kids[i - 1])
  {
    hide Delete, Shape;
    Elsewhere(t, h, b, key, top, i);
    assert Refill(t, b, i, key) == Into(BorrowLeft(b, i), i, key);
  }

  // ... otherwise it merges, with its left neighbour if there is one.
  lemma DeleteMerges(t: int, h: nat, b: Tree, key: int, top: bool, i: nat)
    requires t >= 2 && h > 0 && Enterable(t, b, h, top) && |b.kids| == |b.keys| + 1
    requires StopsAt(b.keys, key, i) && (i < |b.keys| ==> b.keys[i] != key)
    requires |b.kids[i].keys| < t && !Spares(t, b, i - 1) && !Spares(t, b, i + 1)
    ensures var r, n, j := Delete(t, h, b, key, top), |b.keys|, if i > 0 then i - 1 else 0;
      n > 1 ==>
        && r.keys == b.keys[..j] + b.keys[j + 1..] && |r.kids| == n
        && r.kids[..j] == b.kids[..j] && r.kids[j + 1..] == b.kids[j + 2..]
  {
    hide Delete, Shape;
    Elsewhere(t, h, b, key, top, i);
    var j := if i > 0 then i - 1 else 0;
    assert Refill(t, b, i, key) == Into(Merge(b, j), j, key);
  }

  lemma KidHas(t: int, b: Tree, h: nat, i: nat)
    requires t >= 2 && h > 0 && i < |b.kids|
    requires forall k :: 0 <= k < |b.kids| ==> Shape(t, b.kids[k], h - 1, t - 1)
    ensures |b.kids[i].keys| >= t - 1
  {
  }

  // ---------- Insertion ----------

  // `i` keys are not larger than the new one.
  predicate GoesTo(keys: seq<int>, k: int, i: nat) {
    i <= |keys| && (i > 0 ==> keys[i - 1] <= k) && forall j :: i <= j < |keys| ==> k < keys[j]
  }

  lemma {:induction false} PlaceIsSlot(keys: seq<int>, k: int, i: nat)
    requires GoesTo(keys, k, i)
    ensures Slot(keys, k) == i
  {
    if i < |keys| { PlaceIsSlot(keys[..|keys| - 1], k, i); }
  }

  // Two kids that a full one was cut into, around its middle key.
  predicate CutInTwo(t: int, y: Tree, l: Tree, r: Tree) {
    && t >= 1 && |y.keys| == 2 * t - 1 && l.keys == y.keys[..t - 1] && r.keys == y.keys[t..]
    && (if |y.kids| < t then l.kids == r.kids == [] else l.kids == y.kids[..t] && r.kids == y.kids[t..])
  }

  // A kid with room is entered as it is; only that kid changes.
  lemma InsertGoes(t: int, h: nat, x: Tree, k: int, i: nat)
    requires t >= 2 && h > 0 && Shape(t, x, h, 0) && |x.keys| < 2 * t - 1 && GoesTo(x.keys, k, i)
    requires i < |x.kids| && |x.kids[i].keys| < 2 * t - 1
    ensures Shape(t, x.kids[i], h - 1, 0)
    ensures var r := InsertNonfull(t, h, x, k);
      r.keys == x.keys && OthersKept(x, r, i, i + 1) && r.kids[i] == InsertNonfull(t, h - 1, x.kids[i], k)
  {
    hide InsertNonfull;
    PlaceIsSlot(x.keys, k, i);
    InsertUnfolds(t, h, x, k);
  }

  // A full kid is cut in two and its middle key moves up; all others stay where they were.
  lemma InsertSplits(t: int, h: nat, x: Tree, k: int, i: nat)
    requires t >= 2 && h > 0 && Shape(t, x, h, 0) && |x.keys| < 2 * t - 1 && GoesTo(x.keys, k, i)
    requires i < |x.kids| && |x.kids[i].keys| == 2 * t - 1
    ensures var r := InsertNonfull(t, h, x, k);
      && r.keys == x.keys[..i] + [x.kids[i].keys[t - 1]] + x.keys[i..] && |r.kids| == |x.kids| + 1
      && r.kids[..i] == x.kids[..i] && r.kids[i + 2..] == x.kids[i + 1..]
  {
    hide InsertNonfull, Shape;
    PlaceIsSlot(x.keys, k, i);
    InsertUnfolds(t, h, x, k);
  }

  lemma SplitSlot(t: int, x: Tree, k: int, i: nat)
    requires t >= 2 && Internal(x) && GoesTo(x.keys, k, i) && |x.kids[i].keys| == 2 * t - 1
    ensures SlotNode(t, x, k) == Split(t, x, i) && |Split(t, x, i).kids| == |x.kids| + 1
    ensures SlotKid(t, x, k) == if k > x.kids[i].keys[t - 1] then i + 1 else i
    ensures Split(t, x, i).kids[i] == LeftHalf(t, x.kids[i]) && Split(t, x, i).kids[i + 1] == RightHalf(t, x.kids[i])
  {
    PlaceIsSlot(x.keys, k, i);
    SplitKeys(t, x, i);
  }

  // The new key goes right of the middle key only if it is larger.
  lemma InsertIntoHalf(t: int, h: nat, x: Tree, k: int, i: nat) returns (lo: Tree, hi: Tree)
    requires t >= 2 && h > 0 && Shape(t, x, h, 0) && |x.keys| < 2 * t - 1 && GoesTo(x.keys, k, i)
    requires i < |x.kids| && |x.kids[i].keys| == 2 * t - 1
    ensures CutInTwo(t, x.kids[i], lo, hi) && Shape(t, lo, h - 1, 0) && Shape(t, hi, h - 1, 0)
    ensures var r := InsertNonfull(t, h, x, k);
      && i + 1 < |r.kids|
      && if k > x.kids[i].keys[t - 1] then r.kids[i] == lo && r.kids[i + 1] == InsertNonfull(t, h - 1, hi, k)
         else r.kids[i] == InsertNonfull(t, h - 1, lo, k) && r.kids[i + 1] == hi
  {
    lo, hi := LeftHalf(t, x.kids[i]), RightHalf(t, x.kids[i]);
    ShapeHalves(t, x.kids[i], h - 1);
    ShapeMin(t, lo, h - 1, t - 1, 0);
    ShapeMin(t, hi, h - 1, t - 1, 0);
    assert CutInTwo(t, x.kids[i], lo, hi);
    hide InsertNonfull, Shape, LeftHalf, RightHalf, CutInTwo, SlotNode, SlotKid, Split;
    InsertUnfolds(t, h, x, k);
    SplitSlot(t, x, k, i);
  }

  // A full root is cut in two below a new root.
  lemma InsertRaises(t: int, h: nat, x: Tree, k: int) returns (lo: Tree, hi: Tree)
    requires t >= 2 && Shape(t, x, h, if h == 0 then 0 else 1) && |x.keys| == 2 * t - 1
    ensures CutInTwo(t, x, lo, hi) && Shape(t, lo, h, 0) && Shape(t, hi, h, 0)
    ensures var r := Insert(t, h, x, k);
      && r.keys == [x.keys[t - 1]]
      && r.kids == if k > x.keys[t - 1] then [lo, InsertNonfull(t, h, hi, k)] else [InsertNonfull(t, h, lo, k), hi]
  {
    hide InsertNonfull, Insert, Shape;
    lo, hi := LeftHalf(t, x), RightHalf(t, x);
    InsertFull(t, h, x, k);
    var top := Split(t, Node([], [x]), 0);
    assert top.keys == [x.keys[t - 1]] && top.kids == [lo, hi];
    assert top.kids[0] == lo && top.kids[1] == hi;
  }
}
