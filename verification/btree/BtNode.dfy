// One B-tree node: its two fixed arrays, and the loops of btree/btree.cpp that shift them.

module BtNodes {
  import BtModel
  import BtDelete

  // The part of a node that is in use.
  datatype Image = Image(leaf: bool, keys: seq<int>, kids: seq<BNode?>)

  predicate Fit(r: Image) {
    |r.kids| == if r.leaf then 0 else |r.keys| + 1
  }

  // ---------- What the operations below do to that part ----------

  function LowerHalf(t: int, r: Image): Image
    requires t >= 1 && Fit(r) && |r.keys| == 2 * t - 1
  {
    Image(r.leaf, r.keys[..t - 1], if r.leaf then [] else r.kids[..t])
  }

  function UpperHalf(t: int, r: Image): Image
    requires t >= 1 && Fit(r) && |r.keys| == 2 * t - 1
  {
    Image(r.leaf, r.keys[t..], if r.leaf then [] else r.kids[t..])
  }

  function Inserted(r: Image, k: int): Image {
    r.(keys := r.keys[..BtModel.Slot(r.keys, k)] + [k] + r.keys[BtModel.Slot(r.keys, k)..])
  }

  function Removed(r: Image, i: nat): Image
    requires i < |r.keys|
  {
    r.(keys := r.keys[..i] + r.keys[i + 1..])
  }

  function SlotOpened(r: Image, i: nat, k: int, z: BNode): Image
    requires Fit(r) && !r.leaf && i <= |r.keys|
  {
    Image(false, r.keys[..i] + [k] + r.keys[i..], r.kids[..i + 1] + [z] + r.kids[i + 1..])
  }

  function SlotClosed(r: Image, i: nat): Image
    requires Fit(r) && !r.leaf && i < |r.keys|
  {
    Image(false, r.keys[..i] + r.keys[i + 1..], r.kids[..i + 1] + r.kids[i + 2..])
  }

  function Absorbed(l: Image, k: int, r: Image): Image {
    Image(l.leaf, l.keys + [k] + r.keys, l.kids + r.kids)
  }

  function AtBack(r: Image, k: int, c: BNode?): Image {
    Image(r.leaf, r.keys + [k], r.kids + if r.leaf then [] else [c])
  }

  function AtFront(r: Image, k: int, c: BNode?): Image {
    Image(r.leaf, [k] + r.keys, (if r.leaf then [] else [c]) + r.kids)
  }

  function WithoutFirst(r: Image): Image
    requires Fit(r) && r.keys != []
  {
    Image(r.leaf, r.keys[1..], if r.leaf then [] else r.kids[1..])
  }

  function WithoutLast(r: Image): Image
    requires Fit(r) && r.keys != []
  {
    Image(r.leaf, r.keys[..|r.keys| - 1], if r.leaf then [] else r.kids[..|r.kids| - 1])
  }

  // ---------- Sequences ----------

  lemma Opened<T>(s: seq<T>, i: nat, x: T, s': seq<T>)
    requires i <= |s| && |s'| == |s| + 1 && s'[i] == x
    requires forall j :: 0 <= j < i ==> s'[j] == s[j]
    requires forall j :: i < j <= |s| ==> s'[j] == s[j - 1]
    ensures s' == s[..i] + [x] + s[i..]
  {
  }

  lemma OpenedFront<T>(s: seq<T>, x: T, s': seq<T>)
    requires |s'| == |s| + 1 && s'[0] == x && forall j :: 0 < j <= |s| ==> s'[j] == s[j - 1]
    ensures s' == [x] + s
  {
  }

  lemma Appended<T>(a: seq<T>, x: T, b: seq<T>, s: seq<T>)
    requires |s| == |a| + 1 + |b| && s[|a|] == x
    requires forall j :: 0 <= j < |a| ==> s[j] == a[j]
    requires forall j :: |a| < j < |s| ==> s[j] == b[j - |a| - 1]
    ensures s == a + [x] + b
  {
  }

  lemma Closed<T>(s: seq<T>, i: nat, s': seq<T>)
    requires i < |s| == |s'| + 1
    requires forall j :: 0 <= j < i ==> s'[j] == s[j]
    requires forall j :: i <= j < |s'| ==> s'[j] == s[j + 1]
    ensures s' == s[..i] + s[i + 1..]
  {
  }

  class BNode {
    const keys: array<int>
    const childrens: array<BNode?>
    var num: int
    var leaf: bool

    ghost predicate Ok(t: int)
      reads this, childrens
    {
      && t >= 2 && keys.Length == 2 * t - 1 && childrens.Length == 2 * t && 0 <= num <= 2 * t - 1
      && (leaf ==> forall i :: 0 <= i < childrens.Length ==> childrens[i] == null)
    }

    ghost function Look(t: int): (r: Image)
      reads this, keys, childrens
      requires Ok(t)
      ensures |r.keys| == num && r.leaf == leaf && Fit(r)
    {
      Image(leaf, keys[..num], if leaf then [] else childrens[..num + 1])
    }

    // btree_create_node
    constructor (t: int, leaf: bool)
      requires t >= 2
      ensures Ok(t) && fresh(keys) && fresh(childrens) && this.leaf == leaf
      ensures Look(t) == Image(leaf, [], if leaf then [] else [null])
    {
      this.keys := new int[2 * t - 1];
      this.childrens := new BNode?[2 * t](_ => null);
      this.num, this.leaf := 0, leaf;
    }

    // The number of keys that are not larger than `k`: where the scan from the right stops.
    method FindSlot(t: int, k: int) returns (i: int)
      requires Ok(t)
      ensures i == BtModel.Slot(Look(t).keys, k)
    {
      i := num - 1;
      while i >= 0 && keys[i] > k
        invariant -1 <= i < num && BtModel.Slot(keys[..num], k) == BtModel.Slot(keys[..i + 1], k)
      {
        assert keys[..i + 1][..i] == keys[..i];
        i := i - 1;
      }
      i := i + 1;
    }

    // The scan from the left.
    method FindKey(t: int, k: int) returns (i: int)
      requires Ok(t)
      ensures i == BtDelete.Idx(Look(t).keys, k)
    {
      i := 0;
      while i < num && k > keys[i]
        invariant 0 <= i <= num && BtDelete.Idx(keys[..num], k) == i + BtDelete.Idx(keys[i..num], k)
      {
        assert keys[i..num][1..] == keys[i + 1..num];
        i := i + 1;
      }
    }

    // Insertion into a leaf that is not full: shift the larger keys, then store.
    method InsertKey(t: int, k: int)
      requires Ok(t) && leaf && num < 2 * t - 1
      modifies this`num, keys
      ensures Ok(t)
      ensures Look(t) == Inserted(old(Look(t)), k)
    {
      ghost var was := keys[..num];
      var i := ShiftLarger(t, k);
      keys[i] := k;
      num := num + 1;
      Opened(was, i, k, keys[..num]);
    }

    method ShiftLarger(t: int, k: int) returns (i: int)
      requires Ok(t) && num < 2 * t - 1
      modifies keys
      ensures i == BtModel.Slot(old(keys[..num]), k)
      ensures forall j :: 0 <= j < i ==> keys[j] == old(keys[j])
      ensures forall j :: i < j <= num ==> keys[j] == old(keys[j - 1])
    {
      ghost var was := keys[..num];
      i := num - 1;
      assert was[..i + 1] == was;
      while i >= 0 && keys[i] > k
        invariant -1 <= i < num && BtModel.Slot(was, k) == BtModel.Slot(was[..i + 1], k)
        invariant forall j :: 0 <= j <= i ==> keys[j] == old(keys[j])
        invariant forall j :: i + 1 < j <= num ==> keys[j] == old(keys[j - 1])
      {
        assert was[..i + 1][..i] == was[..i];
        keys[i + 1] := keys[i];
        i := i - 1;
      }
      i := i + 1;
    }

    // The second half of btree_split_child: make room for kid `z` behind kid `i`, and for the
    // key between the two.
    method OpenSlot(t: int, i: int, k: int, z: BNode)
      requires Ok(t) && !leaf && num < 2 * t - 1 && 0 <= i <= num
      modifies this`num, keys, childrens
      ensures Ok(t)
      ensures Look(t) == SlotOpened(old(Look(t)), i, k, z)
    {
      ghost var r := Look(t);
      OpenKid(t, i);
      childrens[i + 1] := z;
      OpenKey(t, i);
      keys[i] := k;
      num := num + 1;
      Opened(r.keys, i, k, keys[..num]);
      Opened(r.kids, i + 1, z, childrens[..num + 1]);
    }

    method OpenKid(t: int, i: int)
      requires Ok(t) && !leaf && num < 2 * t - 1 && 0 <= i <= num
      modifies childrens
      ensures forall j :: 0 <= j <= i ==> childrens[j] == old(childrens[j])
      ensures forall j :: i + 1 < j <= num + 1 ==> childrens[j] == old(childrens[j - 1])
    {
      var j := num;
      while j >= i + 1
        invariant i <= j <= num
        invariant forall m :: 0 <= m <= j ==> childrens[m] == old(childrens[m])
        invariant forall m :: j + 1 < m <= num + 1 ==> childrens[m] == old(childrens[m - 1])
      {
        childrens[j + 1] := childrens[j];
        j := j - 1;
      }
    }

    method OpenKey(t: int, i: int)
      requires Ok(t) && num < 2 * t - 1 && 0 <= i <= num
      modifies keys
      ensures forall j :: 0 <= j < i ==> keys[j] == old(keys[j])
      ensures forall j :: i < j <= num ==> keys[j] == old(keys[j - 1])
    {
      var j := num - 1;
      while j >= i
        invariant i - 1 <= j < num
        invariant forall m :: 0 <= m <= j ==> keys[m] == old(keys[m])
        invariant forall m :: j + 1 < m <= num ==> keys[m] == old(keys[m - 1])
      {
        keys[j + 1] := keys[j];
        j := j - 1;
      }
    }

    // The first half of btree_split_child: a new node takes the upper keys and kids of `y`.
    method TakeUpper(t: int, y: BNode)
      requires Ok(t) && y.Ok(t) && y != this && y.keys != keys && y.childrens != childrens
      requires y.num == 2 * t - 1 && leaf == y.leaf
      modifies this`num, keys, childrens
      ensures Ok(t)
      ensures Look(t) == UpperHalf(t, y.Look(t))
    {
      num := t - 1;
      var j := 0;
      while j < t - 1
        modifies keys
        invariant 0 <= j <= t - 1 && forall m :: 0 <= m < j ==> keys[m] == y.keys[m + t]
      {
        keys[j] := y.keys[j + t];
        j := j + 1;
      }
      assert keys[..num] == y.keys[..y.num][t..];
      if !y.leaf {
        j := 0;
        while j < t
          modifies childrens
          invariant 0 <= j <= t && forall m :: 0 <= m < j ==> childrens[m] == y.childrens[m + t]
        {
          childrens[j] := y.childrens[j + t];
          j := j + 1;
        }
        assert childrens[..num + 1] == y.childrens[..y.num + 1][t..];
      }
    }

    // A full node keeps its lower keys and kids.
    method KeepLower(t: int)
      requires Ok(t) && num == 2 * t - 1
      modifies this`num
      ensures Ok(t)
      ensures Look(t) == LowerHalf(t, old(Look(t)))
    {
      ghost var r := Look(t);
      num := t - 1;
      assert keys[..num] == r.keys[..t - 1];
      assert !leaf ==> childrens[..num + 1] == r.kids[..t];
    }

    // The first half of btree_merge: append `k` and everything in `right`.
    method Absorb(t: int, k: int, right: BNode)
      requires Ok(t) && right.Ok(t) && right != this && right.keys != keys && right.childrens != childrens
      requires num == right.num == t - 1 && leaf == right.leaf
      modifies this`num, keys, childrens
      ensures Ok(t)
      ensures Look(t) == Absorbed(old(Look(t)), k, right.Look(t))
    {
      AbsorbKeys(t, k, right);
      if !leaf { AbsorbKids(t, right); }
      num := num + t;
    }

    method AbsorbKeys(t: int, k: int, right: BNode)
      requires Ok(t) && right.Ok(t) && right != this && right.keys != keys && num == right.num == t - 1
      modifies keys
      ensures keys[..2 * t - 1] == old(Look(t)).keys + [k] + right.Look(t).keys
    {
      ghost var r := Look(t);
      keys[t - 1] := k;
      var i := 0;
      while i < t - 1
        invariant 0 <= i <= t - 1 && keys[t - 1] == k
        invariant forall m :: 0 <= m < t - 1 ==> keys[m] == r.keys[m]
        invariant forall m :: t <= m < t + i ==> keys[m] == right.keys[m - t]
      {
        keys[t + i] := right.keys[i];
        i := i + 1;
      }
      Appended(r.keys, k, right.Look(t).keys, keys[..2 * t - 1]);
    }

    method AbsorbKids(t: int, right: BNode)
      requires Ok(t) && right.Ok(t) && right != this && right.childrens != childrens
      requires num == right.num == t - 1 && !leaf && !right.leaf
      modifies childrens
      ensures childrens[..2 * t] == old(Look(t)).kids + right.Look(t).kids
    {
      ghost var r := Look(t);
      var i := 0;
      while i < t
        invariant 0 <= i <= t
        invariant forall m :: 0 <= m < t ==> childrens[m] == r.kids[m]
        invariant forall m :: 0 <= m < i ==> childrens[t + m] == right.childrens[m]
      {
        childrens[t + i] := right.childrens[i];
        i := i + 1;
      }
      assert forall m :: t <= m < t + t ==> childrens[m] == childrens[t + (m - t)];
    }

    // The second half of btree_merge: close the gap left by key `idx` and kid `idx + 1`. The
    // original then clears the slot after the last kid, which a full node does not have.
    method CloseSlot(t: int, idx: int)
      requires Ok(t) && !leaf && 0 <= idx < num
      modifies this`num, keys, childrens
      ensures Ok(t)
      ensures Look(t) == SlotClosed(old(Look(t)), idx)
      ensures old(num) < 2 * t - 1 ==> childrens[old(num) + 1] == null
    {
      ghost var r := Look(t);
      var i := ShiftDown(t, idx);
      ClearAfter(t, i);
      num := num - 1;
      SlotClosedIs(t, idx, r);
    }

    lemma SlotClosedIs(t: int, idx: int, r: Image)
      requires Ok(t) && Fit(r) && !r.leaf && !leaf && 0 <= idx < |r.keys| == num + 1
      requires forall m :: 0 <= m < idx ==> keys[m] == r.keys[m]
      requires forall m :: idx <= m < num ==> keys[m] == r.keys[m + 1]
      requires forall m :: 0 <= m <= idx ==> childrens[m] == r.kids[m]
      requires forall m :: idx < m <= num ==> childrens[m] == r.kids[m + 1]
      ensures Look(t) == SlotClosed(r, idx)
    {
      Closed(r.keys, idx, keys[..num]);
      Closed(r.kids, idx + 1, childrens[..num + 1]);
    }

    method ClearAfter(t: int, i: int)
      requires Ok(t) && i == num
      modifies childrens
      ensures Ok(t) && forall m :: 0 <= m <= num ==> childrens[m] == old(childrens[m])
      ensures num < 2 * t - 1 ==> childrens[num + 1] == null
    {
      AfterLast(t);
      if i + 1 < childrens.Length { childrens[i + 1] := null; }
    }

    // The slot after the last kid lies outside the array exactly when the node is full.
    lemma AfterLast(t: int)
      requires Ok(t)
      ensures num + 1 >= childrens.Length <==> num == 2 * t - 1
    {
    }

    method ShiftDown(t: int, idx: int) returns (i: int)
      requires Ok(t) && !leaf && 0 <= idx < num
      modifies keys, childrens
      ensures Ok(t) && i == num
      ensures forall m :: 0 <= m < idx ==> keys[m] == old(keys[m])
      ensures forall m :: idx <= m < num - 1 ==> keys[m] == old(keys[m + 1])
      ensures forall m :: 0 <= m <= idx ==> childrens[m] == old(childrens[m])
      ensures forall m :: idx < m < num ==> childrens[m] == old(childrens[m + 1])
    {
      i := idx + 1;
      while i < num
        invariant idx + 1 <= i <= num
        invariant forall m :: 0 <= m < idx || i <= m < num ==> keys[m] == old(keys[m])
        invariant forall m :: idx <= m < i - 1 ==> keys[m] == old(keys[m + 1])
        invariant forall m :: 0 <= m <= idx || i <= m <= num ==> childrens[m] == old(childrens[m])
        invariant forall m :: idx < m < i ==> childrens[m] == old(childrens[m + 1])
      {
        keys[i - 1] := keys[i];
        childrens[i] := childrens[i + 1];
        i := i + 1;
      }
    }

    // A key leaves a leaf.
    method RemoveKey(t: int, idx: int)
      requires Ok(t) && leaf && 0 <= idx < num
      modifies this`num, keys
      ensures Ok(t)
      ensures Look(t) == Removed(old(Look(t)), idx)
    {
      ghost var s := Look(t).keys;
      var i := idx;
      while i < num - 1
        modifies keys
        invariant idx <= i <= num - 1
        invariant forall m :: 0 <= m < idx ==> keys[m] == s[m]
        invariant forall m :: idx <= m < i ==> keys[m] == s[m + 1]
        invariant forall m :: i <= m < num ==> keys[m] == s[m]
      {
        keys[i] := keys[i + 1];
        i := i + 1;
      }
      keys[num - 1] := 0;
      num := num - 1;
      Closed(s, idx, keys[..num]);
    }

    method SetKey(t: int, i: int, k: int)
      requires Ok(t) && 0 <= i < num
      modifies keys
      ensures Ok(t) && Look(t) == old(Look(t)).(keys := old(Look(t)).keys[i := k])
    {
      keys[i] := k;
    }

    // Borrowing from the next node: a key and a kid are added behind.
    method Append(t: int, k: int, c: BNode?)
      requires Ok(t) && num < 2 * t - 1 && (leaf ==> c == null)
      modifies this`num, keys, childrens
      ensures Ok(t)
      ensures Look(t) == AtBack(old(Look(t)), k, c)
    {
      ghost var r := Look(t);
      keys[num] := k;
      childrens[num + 1] := c;
      num := num + 1;
      assert keys[..num] == r.keys + [k];
      assert !leaf ==> childrens[..num + 1] == r.kids + [c];
    }

    // The next node gives up its first key and kid.
    method DropFirst(t: int)
      requires Ok(t) && num > 0
      modifies this`num, keys, childrens
      ensures Ok(t)
      ensures Look(t) == WithoutFirst(old(Look(t)))
    {
      ghost var r := Look(t);
      MoveDown(t);
      num := num - 1;
      WithoutFirstIs(t, r);
    }

    // The fields after the move say what the node holds.
    lemma WithoutFirstIs(t: int, r: Image)
      requires Ok(t) && Fit(r) && |r.keys| == num + 1 && r.leaf == leaf
      requires forall m :: 0 <= m < num ==> keys[m] == r.keys[m + 1]
      requires !leaf ==> forall m :: 0 <= m <= num ==> childrens[m] == r.kids[m + 1]
      ensures Look(t) == WithoutFirst(r)
    {
      Closed(r.keys, 0, keys[..num]);
      if !leaf { Closed(r.kids, 0, childrens[..num + 1]); }
    }

    // Everything moves down by one, and the vacated places are cleared.
    method MoveDown(t: int)
      requires Ok(t) && num > 0
      modifies keys, childrens
      ensures Ok(t)
      ensures forall m :: 0 <= m < num - 1 ==> keys[m] == old(keys[m + 1])
      ensures forall m :: 0 <= m < num ==> childrens[m] == old(childrens[m + 1])
    {
      ShiftFirst(t);
      keys[num - 1] := 0;
      childrens[num - 1] := childrens[num];
      childrens[num] := null;
    }

    method ShiftFirst(t: int)
      requires Ok(t) && num > 0
      modifies keys, childrens
      ensures forall m :: 0 <= m < num - 1 ==> keys[m] == old(keys[m + 1]) && childrens[m] == old(childrens[m + 1])
      ensures childrens[num] == old(childrens[num]) && Ok(t)
    {
      var i := 0;
      while i < num - 1
        invariant 0 <= i <= num - 1
        invariant forall m :: 0 <= m < i ==> keys[m] == old(keys[m + 1]) && childrens[m] == old(childrens[m + 1])
        invariant forall m :: i <= m < num ==> keys[m] == old(keys[m])
        invariant forall m :: i <= m <= num ==> childrens[m] == old(childrens[m])
        invariant Ok(t)
      {
        keys[i] := keys[i + 1];
        childrens[i] := childrens[i + 1];
        i := i + 1;
      }
    }

    // Borrowing from the previous node: a key and a kid are added in front.
    method Prepend(t: int, k: int, c: BNode?)
      requires Ok(t) && num < 2 * t - 1 && (leaf ==> c == null)
      modifies this`num, keys, childrens
      ensures Ok(t)
      ensures Look(t) == AtFront(old(Look(t)), k, c)
    {
      ghost var r := Look(t);
      ShiftAll(t);
      childrens[1] := childrens[0];
      childrens[0] := c;
      keys[0] := k;
      num := num + 1;
      OpenedFront(r.keys, k, keys[..num]);
      if !leaf { OpenedFront(r.kids, c, childrens[..num + 1]); }
    }

    method ShiftAll(t: int)
      requires Ok(t) && num < 2 * t - 1
      modifies keys, childrens
      ensures forall m :: 0 < m <= num ==> keys[m] == old(keys[m - 1])
      ensures childrens[0] == old(childrens[0])
      ensures forall m :: 1 < m <= num + 1 ==> childrens[m] == old(childrens[m - 1])
      ensures Ok(t)
    {
      var i := num;
      while i > 0
        invariant 0 <= i <= num
        invariant forall m :: 0 <= m < i ==> keys[m] == old(keys[m])
        invariant forall m :: i < m <= num ==> keys[m] == old(keys[m - 1])
        invariant forall m :: 0 <= m <= i ==> childrens[m] == old(childrens[m])
        invariant forall m :: i + 1 < m <= num + 1 ==> childrens[m] == old(childrens[m - 1])
        invariant Ok(t)
      {
        keys[i] := keys[i - 1];
        childrens[i + 1] := childrens[i];
        i := i - 1;
      }
    }

    // The previous node gives up its last key and kid.
    method DropLast(t: int)
      requires Ok(t) && num > 0
      modifies this`num, keys, childrens
      ensures Ok(t)
      ensures Look(t) == WithoutLast(old(Look(t)))
    {
      ghost var r := Look(t);
      keys[num - 1] := 0;
      childrens[num] := null;
      num := num - 1;
      assert keys[..num] == r.keys[..|r.keys| - 1];
      assert !leaf ==> childrens[..num + 1] == r.kids[..|r.kids| - 1];
    }
  }
}
