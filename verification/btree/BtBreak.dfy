// A history after which the keys are out of order: with t = 2, insert 1 to 10 and delete 4.

module BtBreak {
  import opened BtModel
  import opened BtDelete
  import opened BtHistory

  // ---------- Insertion of a key that is larger than all others ----------

  predicate Largest(keys: seq<int>, k: int) {
    keys == [] || keys[|keys| - 1] <= k
  }

  lemma AppendToLeaf(t: int, keys: seq<int>, k: int)
    requires t >= 2 && |keys| < 2 * t - 1 && Largest(keys, k)
    ensures Shape(t, Node(keys, []), 0, 0) && InsertNonfull(t, 0, Node(keys, []), k) == Node(keys + [k], [])
  {
  }

  // The last kid has room.
  lemma AppendBelow(t: int, h: nat, x: Tree, k: int)
    requires t >= 2 && h > 0 && Shape(t, x, h, 0) && |x.keys| < 2 * t - 1 && Largest(x.keys, k)
    requires |x.kids[|x.keys|].keys| < 2 * t - 1
    ensures Shape(t, x.kids[|x.keys|], h - 1, 0)
    ensures InsertNonfull(t, h, x, k) == WithKid(x, |x.keys|, InsertNonfull(t, h - 1, x.kids[|x.keys|], k))
  {
    ShapeMin(t, x.kids[|x.keys|], h - 1, t - 1, 0);
    SlotShape(t, x, h, 0, k);
  }

  // The last kid is full and is split.
  lemma AppendSplit(t: int, h: nat, x: Tree, k: int)
    requires t >= 2 && h > 0 && Shape(t, x, h, 0) && |x.keys| < 2 * t - 1 && Largest(x.keys, k)
    requires |x.kids[|x.keys|].keys| == 2 * t - 1 && x.kids[|x.keys|].keys[t - 1] < k
    ensures var n, y := |x.keys|, x.kids[|x.keys|];
      && Shape(t, RightHalf(t, y), h - 1, 0) && |RightHalf(t, y).keys| < 2 * t - 1
      && InsertNonfull(t, h, x, k)
         == Node(x.keys + [y.keys[t - 1]], x.kids[..n] + [LeftHalf(t, y), InsertNonfull(t, h - 1, RightHalf(t, y), k)])
  {
    var n, y := |x.keys|, x.kids[|x.keys|];
    ShapeHalves(t, y, h - 1);
    ShapeMin(t, RightHalf(t, y), h - 1, t - 1, 0);
    SplitLast(t, x);
    SlotsLast(t, x, k);
    InsertUnfolds(t, h, x, k);
  }

  lemma SplitLast(t: int, x: Tree)
    requires t >= 2 && Internal(x) && |x.kids[|x.keys|].keys| == 2 * t - 1
    ensures var n, y := |x.keys|, x.kids[|x.keys|];
      Split(t, x, n) == Node(x.keys + [y.keys[t - 1]], x.kids[..n] + [LeftHalf(t, y), RightHalf(t, y)])
  {
    var n := |x.keys|;
    assert x.keys[..n] == x.keys && x.keys[n..] == [] && x.kids[n + 1..] == [];
  }

  lemma SlotsLast(t: int, x: Tree, k: int)
    requires t >= 2 && Internal(x) && Largest(x.keys, k)
    requires |x.kids[|x.keys|].keys| == 2 * t - 1 && x.kids[|x.keys|].keys[t - 1] < k
    ensures SlotNode(t, x, k) == Split(t, x, |x.keys|) && SlotKid(t, x, k) == |x.keys| + 1
  {
    SplitKeys(t, x, |x.keys|);
  }

  // The root is full and is split.
  lemma AppendRoot(t: int, h: nat, x: Tree, k: int)
    requires t >= 2 && Shape(t, x, h, if h == 0 then 0 else 1) && |x.keys| == 2 * t - 1 && x.keys[t - 1] < k
    ensures Shape(t, RightHalf(t, x), h, 0) && |RightHalf(t, x).keys| < 2 * t - 1
    ensures Insert(t, h, x, k) == Node([x.keys[t - 1]], [LeftHalf(t, x), InsertNonfull(t, h, RightHalf(t, x), k)])
  {
    hide InsertNonfull, LeftHalf, RightHalf;
    InsertFull(t, h, x, k);
    SplitLast(t, Node([], [x]));
    assert Node([], [x]).kids[..0] + [LeftHalf(t, x), RightHalf(t, x)] == [LeftHalf(t, x), RightHalf(t, x)];
  }

  // ---------- The ten insertions ----------

  function Leaf(keys: seq<int>): Tree { Node(keys, []) }

  // The tree after the insertion of 1 to `n`.
  function Grown(n: nat): Root {
    match n
    case 0 => Created
    case 1 => Some(0, Leaf([1]))
    case 2 => Some(0, Leaf([1, 2]))
    case 3 => Some(0, Leaf([1, 2, 3]))
    case 4 => Some(1, Node([2], [Leaf([1]), Leaf([3, 4])]))
    case 5 => Some(1, Node([2], [Leaf([1]), Leaf([3, 4, 5])]))
    case 6 => Some(1, Node([2, 4], [Leaf([1]), Leaf([3]), Leaf([5, 6])]))
    case 7 => Some(1, Node([2, 4], [Leaf([1]), Leaf([3]), Leaf([5, 6, 7])]))
    case 8 => Some(1, Node([2, 4, 6], [Leaf([1]), Leaf([3]), Leaf([5]), Leaf([7, 8])]))
    case 9 => Some(2, Node([4], [Low(), Node([6], [Leaf([5]), Leaf([7, 8, 9])])]))
    case _ => Some(2, Node([4], [Low(), High()]))
  }

  function Low(): Tree { Node([2], [Leaf([1]), Leaf([3])]) }

  function High(): Tree { Node([6, 8], [Leaf([5]), Leaf([7]), Leaf([9, 10])]) }

  lemma GrownByLeaf(n: nat)
    requires n < 3 && Valid(2, Grown(n))
    ensures AfterInsert(2, Grown(n), n + 1) == Grown(n + 1)
  {
    AppendToLeaf(2, Grown(n).b.keys, n + 1);
    InsertNotFull(2, 0, Grown(n).b, n + 1);
  }

  lemma Halves(a: int, b: int, c: int)
    ensures LeftHalf(2, Leaf([a, b, c])) == Leaf([a]) && RightHalf(2, Leaf([a, b, c])) == Leaf([c])
  {
  }

  lemma Grown4()
    requires Valid(2, Grown(3))
    ensures AfterInsert(2, Grown(3), 4) == Grown(4)
  {
    Halves(1, 2, 3);
    AppendRoot(2, 0, Leaf([1, 2, 3]), 4);
    AppendToLeaf(2, [3], 4);
    assert [3] + [4] == [3, 4];
  }

  // A last kid that is a leaf with room gets the key.
  lemma GrowsLast(x: Tree, keys: seq<int>, k: int)
    requires Shape(2, x, 1, 0) && |x.keys| < 3 && Largest(x.keys, k)
    requires x.kids[|x.keys|] == Leaf(keys) && |keys| < 3 && Largest(keys, k)
    ensures InsertNonfull(2, 1, x, k) == WithKid(x, |x.keys|, Leaf(keys + [k]))
  {
    AppendBelow(2, 1, x, k);
    AppendToLeaf(2, keys, k);
  }

  // A last kid that is a full leaf is split first.
  lemma SplitsLast(x: Tree, a: int, b: int, c: int, k: int)
    requires Shape(2, x, 1, 0) && |x.keys| < 3 && Largest(x.keys, k)
    requires x.kids[|x.keys|] == Leaf([a, b, c]) && b < k && c <= k
    ensures InsertNonfull(2, 1, x, k) == Node(x.keys + [b], x.kids[..|x.keys|] + [Leaf([a]), Leaf([c, k])])
  {
    AppendSplit(2, 1, x, k);
    Halves(a, b, c);
    AppendToLeaf(2, [c], k);
    assert [c] + [k] == [c, k];
  }

  lemma Grown5()
    requires Valid(2, Grown(4))
    ensures AfterInsert(2, Grown(4), 5) == Grown(5)
  {
    var b := Grown(4).b;
    InsertNotFull(2, 1, b, 5);
    GrowsLast(b, [3, 4], 5);
    assert [3, 4] + [5] == [3, 4, 5];
    assert b.kids[1 := Leaf([3, 4, 5])] == Grown(5).b.kids;
  }

  lemma Grown6()
    requires Valid(2, Grown(5))
    ensures AfterInsert(2, Grown(5), 6) == Grown(6)
  {
    var b := Grown(5).b;
    InsertNotFull(2, 1, b, 6);
    SplitsLast(b, 3, 4, 5, 6);
    assert b.kids[..1] + [Leaf([3]), Leaf([5, 6])] == Grown(6).b.kids;
  }

  lemma Grown7()
    requires Valid(2, Grown(6))
    ensures AfterInsert(2, Grown(6), 7) == Grown(7)
  {
    var b := Grown(6).b;
    InsertNotFull(2, 1, b, 7);
    GrowsLast(b, [5, 6], 7);
    assert [5, 6] + [7] == [5, 6, 7];
    assert b.kids[2 := Leaf([5, 6, 7])] == Grown(7).b.kids;
  }

  lemma Grown8()
    requires Valid(2, Grown(7))
    ensures AfterInsert(2, Grown(7), 8) == Grown(8)
  {
    var b := Grown(7).b;
    InsertNotFull(2, 1, b, 8);
    SplitsLast(b, 5, 6, 7, 8);
    assert b.kids[..2] + [Leaf([5]), Leaf([7, 8])] == Grown(8).b.kids;
  }

  lemma Halves8()
    ensures var b := Grown(8).b;
      LeftHalf(2, b) == Low() && RightHalf(2, b) == Node([6], [Leaf([5]), Leaf([7, 8])])
  {
    var b := Grown(8).b;
    assert b.kids[..2] == Low().kids && b.kids[2..] == [Leaf([5]), Leaf([7, 8])];
  }

  lemma Grown9()
    requires Valid(2, Grown(8))
    ensures AfterInsert(2, Grown(8), 9) == Grown(9)
  {
    hide InsertNonfull, LeftHalf, RightHalf;
    var b, r := Grown(8).b, Node([6], [Leaf([5]), Leaf([7, 8])]);
    AppendRoot(2, 1, b, 9);
    Halves8();
    GrowsLast(r, [7, 8], 9);
    assert [7, 8] + [9] == [7, 8, 9];
    assert r.kids[1 := Leaf([7, 8, 9])] == Grown(9).b.kids[1].kids;
  }

  lemma Grown10()
    requires Valid(2, Grown(9))
    ensures AfterInsert(2, Grown(9), 10) == Grown(10)
  {
    hide InsertNonfull;
    var b := Grown(9).b;
    InsertNotFull(2, 2, b, 10);
    AppendBelow(2, 2, b, 10);
    SplitsLast(b.kids[1], 7, 8, 9, 10);
    assert [6] + [8] == [6, 8] && b.kids[1].kids[..1] + [Leaf([7]), Leaf([9, 10])] == High().kids;
    assert b.kids[1 := High()] == Grown(10).b.kids;
  }

  lemma GrownStep(n: nat)
    requires n < 10 && Valid(2, Grown(n))
    ensures AfterInsert(2, Grown(n), n + 1) == Grown(n + 1) && Valid(2, Grown(n + 1))
  {
    hide Grown, AfterInsert, Valid, Keys, Gains;
    assert Grown(n).Some? by { GrownIsTree(n); }
    InsertKeeps(2, Grown(n), n + 1);
    match n {
      case 3 => Grown4();
      case 4 => Grown5();
      case 5 => Grown6();
      case 6 => Grown7();
      case 7 => Grown8();
      case 8 => Grown9();
      case 9 => Grown10();
      case _ => GrownByLeaf(n);
    }
  }

  lemma GrownIsTree(n: nat)
    ensures Grown(n).Some?
  {
  }

  // The insertions of `n + 1` to 10.
  function Inserts(n: nat): seq<Op>
    requires n <= 10
    decreases 10 - n
  {
    if n == 10 then [] else [Ins(n + 1)] + Inserts(n + 1)
  }

  lemma {:induction false} InsertsGrow(n: nat)
    requires n <= 10 && Valid(2, Grown(n))
    ensures Supported(2, Grown(n), Inserts(n)) && Final(2, Grown(n), Inserts(n)) == Grown(10)
    ensures Orderly(2, Grown(n), Inserts(n)) && Valid(2, Grown(10))
    decreases 10 - n
  {
    hide Grown, Valid;
    GrownIsTree(n);
    if n < 10 {
      GrownStep(n);
      assert Inserts(n)[1..] == Inserts(n + 1);
      InsertsGrow(n + 1);
    }
  }

  // ---------- The deletion ----------

  // The last leaf that the deletion reaches.
  lemma LeafLoses()
    ensures Enterable(2, Leaf([5, 6, 7]), 0, false)
    ensures Delete(2, 0, Leaf([5, 6, 7]), 6, false) == Leaf([5, 7])
  {
    var m := Leaf([5, 6, 7]);
    assert m.keys[1..] == [6, 7] && Idx([6, 7], 6) == 0 && Idx(m.keys, 6) == 1;
    assert m.keys[..1] + m.keys[2..] == [5, 7];
  }

  lemma HighMerges()
    ensures Merge(High(), 0) == Node([8], [Leaf([5, 6, 7]), Leaf([9, 10])])
  {
    assert MergedKid(High(), 0) == Leaf([5, 6, 7]);
    assert High().keys[1..] == [8] && High().kids[2..] == [Leaf([9, 10])];
    assert Merge(High(), 0).keys == [8] && Merge(High(), 0).kids == [Leaf([5, 6, 7]), Leaf([9, 10])];
  }

  // The key 6 is deleted from an internal node whose first two kids are minimal.
  lemma HighLoses()
    ensures Enterable(2, High(), 1, false)
    ensures Delete(2, 1, High(), 6, false) == Node([8], [Leaf([5, 7]), Leaf([9, 10])])
  {
    assert Idx([6, 8], 6) == 0;
    DeleteUnfolds(2, 1, High(), 6, false);
    HighMerges();
    LeafLoses();
  }

  function Broken(): Tree { Node([6], [Low(), Node([8], [Leaf([5, 7]), Leaf([9, 10])])]) }

  // The deletion of 4 draws 6, the first key of the node on its right, although 5 is below it.
  lemma DrawsSix()
    requires Valid(2, Grown(10))
    ensures AfterDelete(2, Grown(10), 4) == Some(2, Broken())
  {
    var b := Grown(10).b;
    assert Idx([4], 4) == 0;
    DeleteUnfolds(2, 2, b, 4, true);
    assert Turn(2, b, 4) == FromRight(Node([6], b.kids), 1, 6);
    HighLoses();
    assert b.kids[1 := Node([8], [Leaf([5, 7]), Leaf([9, 10])])] == Broken().kids;
  }

  lemma BrokenOrder()
    ensures !Sorted(Flat(Broken()))
  {
    hide Flat, Before, After, Sorted;
    var b, r := Broken(), Broken().kids[1];
    FlatAt(b, 1);
    LastOfFront(b, 1);
    FlatAt(r, 0);
    LeafFlat(r.kids[0]);
    SortedThree(Before(b, 1), Flat(r), After(b, 1));
    assert 6 in Before(b, 1) && 5 in Flat(r);
  }

  // From the empty tree: ten insertions leave the keys in order, and one deletion breaks it.
  lemma OrderCanBreak()
    ensures Valid(2, Created) && Supported(2, Created, Inserts(0)) && Supported(2, Created, Inserts(0) + [Del(4)])
    ensures Sorted(Keys(Final(2, Created, Inserts(0))))
    ensures !Sorted(Keys(Final(2, Created, Inserts(0) + [Del(4)])))
  {
    InsertsGrow(0);
    HistoryCorrect(2, Created, Inserts(0));
    DrawsSix();
    BrokenOrder();
    DeleteKeepsShape(2, Grown(10), 4);
    OneDelete(Grown(10));
    HistoryConcat(2, Created, Inserts(0), [Del(4)]);
  }

  lemma OneDelete(r: Root)
    requires Valid(2, r)
    ensures Supported(2, r, [Del(4)]) && Final(2, r, [Del(4)]) == AfterDelete(2, r, 4)
  {
    StepValid(2, r, Del(4));
    assert [Del(4)][1..] == [];
  }
}
