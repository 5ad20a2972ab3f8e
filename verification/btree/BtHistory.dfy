// Whole histories of insertions and deletions, from the root's point of view.

module BtHistory {
  import opened BtModel
  import opened BtDelete

  // T->root: NULL once the last key is gone, otherwise a tree of height `h`.
  datatype Root = Null | Some(h: nat, b: Tree)

  ghost predicate Valid(t: int, r: Root) {
    t >= 2 && (r.Some? ==> Shape(t, r.b, r.h, if r.h == 0 then 0 else 1))
  }

  function Keys(r: Root): seq<int> {
    if r.Null? then [] else Flat(r.b)
  }

  // A new tree is one empty leaf.
  const Created := Some(0, Node([], []))

  function AfterInsert(t: int, r: Root, k: int): Root
    requires Valid(t, r) && r.Some?
  {
    Some(if |r.b.keys| == 2 * t - 1 then r.h + 1 else r.h, Insert(t, r.h, r.b, k))
  }

  // The root goes away with its last key, and gives way to its only kid when it collapses.
  function AfterDelete(t: int, r: Root, key: int): Root
    requires Valid(t, r)
  {
    if r.Null? then r
    else
      var d := Delete(t, r.h, r.b, key, true);
      if r.h > 0 then Some(if Collapses(t, r.b) then r.h - 1 else r.h, d)
      else if d.keys == [] && r.b.keys != [] then Null
      else Some(0, d)
  }

  lemma InsertKeeps(t: int, r: Root, k: int)
    requires Valid(t, r) && r.Some?
    ensures Valid(t, AfterInsert(t, r, k)) && Gains(Keys(r), Keys(AfterInsert(t, r, k)), k)
  {
    hide Flat, Insert;
    InsertCorrect(t, r.h, r.b, k);
    var r' := AfterInsert(t, r, k);
    if r'.h == 0 { ShapeMin(t, r'.b, 0, 1, 0); }
  }

  lemma DeleteKeepsShape(t: int, r: Root, key: int)
    requires Valid(t, r)
    ensures Valid(t, AfterDelete(t, r, key))
  {
    hide Flat, Delete, Collapses;
    if r.Some? {
      DeleteShape(t, r.h, r.b, key, true);
      var r' := AfterDelete(t, r, key);
      if r'.Some? {
        var least := if r.h > 0 && Collapses(t, r.b) then t - 1 else if r.h == 0 then 0 else 1;
        ShapeMin(t, r'.b, r'.h, least, if r'.h == 0 then 0 else 1);
      }
    }
  }

  lemma DeleteKeepsContent(t: int, r: Root, key: int)
    requires Valid(t, r) && Sorted(Keys(r))
    ensures Removes(Keys(r), Keys(AfterDelete(t, r, key)), key)
    ensures Sorted(Keys(AfterDelete(t, r, key))) <==> r.Some? ==> DrawsOk(t, r.h, r.b, key, true)
  {
    hide Flat, Delete, DrawsOk, Collapses, Removes;
    if r.Null? {
      NothingRemoved([], key);
    } else {
      DeleteContent(t, r.h, r.b, key, true);
      if r.h == 0 {
        LeafContent(t, r.b, key, true);
        LeafStays(t, r.b, key);
      }
    }
  }

  lemma LeafStays(t: int, b: Tree, key: int)
    requires t >= 2 && Enterable(t, b, 0, true)
    ensures Flat(Delete(t, 0, b, key, true)) == Delete(t, 0, b, key, true).keys
  {
    TurnShape(t, b, 0, true, key);
    LeafFlat(Turn(t, b, key).b);
  }

  // ---------- Histories ----------

  datatype Op = Ins(k: int) | Del(k: int)

  function Step(t: int, r: Root, op: Op): Root
    requires Valid(t, r) && (op.Ins? ==> r.Some?)
  {
    match op
    case Ins(k) => AfterInsert(t, r, k)
    case Del(k) => AfterDelete(t, r, k)
  }

  lemma StepValid(t: int, r: Root, op: Op)
    requires Valid(t, r) && (op.Ins? ==> r.Some?)
    ensures Valid(t, Step(t, r, op))
  {
    if op.Ins? { InsertKeeps(t, r, op.k); } else { DeleteKeepsShape(t, r, op.k); }
  }

  // The histories the program supports: no insertion once the root is NULL.
  ghost predicate Supported(t: int, r: Root, ops: seq<Op>)
    requires Valid(t, r)
    decreases |ops|
  {
    ops == [] ||
    ((ops[0].Ins? ==> r.Some?)
     && (StepValid(t, r, ops[0]); Supported(t, Step(t, r, ops[0]), ops[1..])))
  }

  function Final(t: int, r: Root, ops: seq<Op>): Root
    requires Valid(t, r) && Supported(t, r, ops)
    decreases |ops|
  {
    if ops == [] then r
    else
      StepValid(t, r, ops[0]);
      Final(t, Step(t, r, ops[0]), ops[1..])
  }

  // One history after another.
  lemma {:induction false} HistoryConcat(t: int, r: Root, a: seq<Op>, b: seq<Op>)
    requires Valid(t, r) && Supported(t, r, a) && Valid(t, Final(t, r, a)) && Supported(t, Final(t, r, a), b)
    ensures Supported(t, r, a + b) && Final(t, r, a + b) == Final(t, Final(t, r, a), b)
    decreases |a|
  {
    if a == [] {
      assert a + b == b;
    } else {
      StepValid(t, r, a[0]);
      assert (a + b)[0] == a[0] && (a + b)[1..] == a[1..] + b;
      HistoryConcat(t, Step(t, r, a[0]), a[1..], b);
    }
  }

  // Every deletion of the history draws only extreme keys.
  ghost predicate Orderly(t: int, r: Root, ops: seq<Op>)
    requires Valid(t, r) && Supported(t, r, ops)
    decreases |ops|
  {
    ops == [] ||
    ((ops[0].Del? && r.Some? ==> DrawsOk(t, r.h, r.b, ops[0].k, true))
     && (StepValid(t, r, ops[0]); Orderly(t, Step(t, r, ops[0]), ops[1..])))
  }

  // The multiset a history leaves behind.
  function Tally(m: multiset<int>, ops: seq<Op>): multiset<int>
    decreases |ops|
  {
    if ops == [] then m
    else Tally(if ops[0].Ins? then m + multiset{ops[0].k} else m - multiset{ops[0].k}, ops[1..])
  }

  // Occupancy and depth hold after any supported history; if it is orderly, the keys are in
  // order and are exactly the inserted ones that were not deleted.
  lemma {:induction false} HistoryCorrect(t: int, r: Root, ops: seq<Op>)
    requires Valid(t, r) && Supported(t, r, ops)
    ensures Valid(t, Final(t, r, ops))
    ensures Sorted(Keys(r)) && Orderly(t, r, ops) ==>
      Sorted(Keys(Final(t, r, ops))) && multiset(Keys(Final(t, r, ops))) == Tally(multiset(Keys(r)), ops)
    decreases |ops|
  {
    hide Keys, Sorted, DrawsOk, AfterInsert, AfterDelete;
    if ops != [] {
      StepValid(t, r, ops[0]);
      StepContent(t, r, ops[0]);
      HistoryCorrect(t, Step(t, r, ops[0]), ops[1..]);
    }
  }

  lemma StepContent(t: int, r: Root, op: Op)
    requires Valid(t, r) && (op.Ins? ==> r.Some?)
    ensures Sorted(Keys(r)) && (op.Del? && r.Some? ==> DrawsOk(t, r.h, r.b, op.k, true)) ==>
      && Sorted(Keys(Step(t, r, op)))
      && multiset(Keys(Step(t, r, op)))
         == if op.Ins? then multiset(Keys(r)) + multiset{op.k} else multiset(Keys(r)) - multiset{op.k}
  {
    hide Keys, Sorted, DrawsOk, AfterInsert, AfterDelete;
    if op.Ins? {
      InsertKeeps(t, r, op.k);
    } else if Sorted(Keys(r)) {
      DeleteKeepsContent(t, r, op.k);
    }
  }
}
