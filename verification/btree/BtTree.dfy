// The B-tree of btree/btree.cpp on linked nodes, changed in place.

module BtTrees {
  import opened BtModel
  import opened BtDelete
  import opened BtNodes
  import opened BtMemory
  import BtHistory

  class BTree {
    var root: BNode?
    var t: int
    ghost var nodes: set<BNode>   // every node created so far
    ghost var repr: set<object>   // those nodes and their arrays
    ghost var owner: map<object, BNode>
    ghost var tree: Tr            // what `root` leads to, unless it is NULL
    ghost var height: nat

    // Every node is well-formed and has its own two arrays.
    ghost predicate Sound(): (b: bool)
      reads this`t, this`nodes, this`repr, this`owner, repr
      ensures b ==> t >= 2 && this !in repr
    {
      && t >= 2 && this !in repr
      && forall n :: n in nodes ==> n in repr && Owned(n) && n.Ok(t)
    }

    ghost predicate Owned(n: BNode)
      reads this`repr, this`owner
    {
      && n.keys in repr && n.keys in owner && owner[n.keys] == n
      && n.childrens in repr && n.childrens in owner && owner[n.childrens] == n
    }

    ghost function Mem(): (m: Mem)
      reads this`t, this`nodes, this`repr, this`owner, repr
      requires Sound()
      ensures m.Keys == nodes && forall n :: n in nodes ==> Fit(m[n])
    {
      map n | n in nodes :: n.Look(t)
    }

    ghost function View(): BtHistory.Root
      reads this
    {
      if root == null then BtHistory.Null else BtHistory.Some(height, Value(tree))
    }

    ghost predicate Valid()
      reads this, repr
    {
      Sound() && BtHistory.Valid(t, View()) && (root != null ==> tree.n == root && Rep(Mem(), tree))
    }

    // btree_create
    constructor (t: int)
      requires t >= 2
      ensures Valid() && fresh(repr) && this.t == t && View() == BtHistory.Created
    {
      this.t := t;
      var x := new BNode(t, true);
      root, nodes, repr, tree, height := x, {x}, {x, x.keys, x.childrens}, Tr(x, [], []), 0;
      owner := map[x.keys as object := x, x.childrens as object := x];
    }

    // What a node in memory holds.
    lemma Fields(n: BNode)
      requires Sound() && n in nodes
      ensures var r := Mem()[n];
        && Fit(r) && n.num == |r.keys| < n.keys.Length + 1 && n.num < n.childrens.Length && (n.leaf <==> r.leaf)
        && (forall i :: 0 <= i < |r.keys| ==> n.keys[i] == r.keys[i])
        && (forall i :: 0 <= i < |r.kids| ==> n.childrens[i] == r.kids[i])
        && (r.leaf ==> forall i :: 0 <= i <= n.num ==> n.childrens[i] == null)
      ensures n.Ok(t) && t >= 2
    {
    }

    // ---------- One node changes, the others do not ----------

    ghost predicate Apart(x: BNode)
      reads this
    {
      forall n :: n in nodes && n != x ==> n.keys != x.keys && n.childrens != x.childrens
    }

    lemma OwnArrays(x: BNode)
      requires Sound() && x in nodes
      ensures Fit(Mem()[x]) && x.num == |Mem()[x].keys| && x.leaf == Mem()[x].leaf
      ensures Apart(x) && x in repr && x.keys in repr && x.childrens in repr && x.Ok(t) && this !in repr
    {
    }

    twostate lemma OnlyChanged(x: BNode)
      requires old(Sound()) && unchanged(this) && x in nodes && x.Ok(t)
      requires forall n :: n in nodes && n != x ==> unchanged(n) && unchanged(n.keys) && unchanged(n.childrens)
      ensures Sound() && Mem() == old(Mem())[x := x.Look(t)]
    {
      hide BNode.Look, BNode.Ok;
    }

    method CreateNode(leaf: bool) returns (z: BNode)
      requires Sound()
      modifies this`nodes, this`repr, this`owner
      ensures Sound() && z !in old(nodes) && nodes == old(nodes) + {z} && fresh(repr - old(repr))
      ensures Mem() == old(Mem())[z := Image(leaf, [], if leaf then [] else [null])]
      ensures z.leaf == leaf
    {
      hide BNode.Look, BNode.Ok, Mem;
      z := new BNode(t, leaf);
      Enter(z);
    }

    ghost method Enter(z: BNode)
      requires Sound() && z.Ok(t) && z !in nodes && z !in repr && z.keys !in repr && z.childrens !in repr
      modifies this`nodes, this`repr, this`owner
      ensures Sound() && nodes == old(nodes) + {z} && repr == old(repr) + {z, z.keys, z.childrens}
      ensures Mem() == old(Mem())[z := z.Look(t)]
    {
      hide BNode.Look, BNode.Ok;
      nodes := nodes + {z};
      repr := repr + {z, z.keys, z.childrens};
      owner := owner[z.keys := z][z.childrens := z];
    }

    // The operations of one node, as seen by the whole memory.

    method SetFirst(x: BNode, c: BNode)
      requires Sound() && x in nodes && Mem()[x] == Image(false, [], [null])
      modifies repr
      ensures Sound() && Mem() == old(Mem())[x := Image(false, [], [c])]
    {
      hide Sound;
      OwnArrays(x);
      x.childrens[0] := c;
      assert x.childrens[..1] == [c];
      OnlyChanged(x);
    }

    method TakeUpper(z: BNode, y: BNode)
      requires Sound() && z in nodes && y in nodes && z != y && z.leaf == y.leaf && |Mem()[y].keys| == 2 * t - 1
      modifies repr
      ensures Sound() && Mem() == old(Mem())[z := UpperHalf(t, old(Mem())[y])]
    {
      hide Sound, BNode.Look, BNode.Ok;
      OwnArrays(z);
      OwnArrays(y);
      z.TakeUpper(t, y);
      OnlyChanged(z);
    }

    method Absorb(l: BNode, k: int, r: BNode)
      requires Sound() && l in nodes && r in nodes && l != r && Mem()[l].leaf == Mem()[r].leaf
      requires |Mem()[l].keys| == |Mem()[r].keys| == t - 1
      modifies repr
      ensures Sound() && Mem() == old(Mem())[l := Absorbed(old(Mem())[l], k, old(Mem())[r])]
    {
      hide Sound, BNode.Look, BNode.Ok;
      OwnArrays(l);
      OwnArrays(r);
      l.Absorb(t, k, r);
      OnlyChanged(l);
    }

    method KeepLower(y: BNode)
      requires Sound() && y in nodes && |Mem()[y].keys| == 2 * t - 1
      modifies repr
      ensures Sound() && Mem() == old(Mem())[y := LowerHalf(t, old(Mem())[y])]
    {
      hide Sound, BNode.Look, BNode.Ok;
      OwnArrays(y);
      y.KeepLower(t);
      OnlyChanged(y);
    }

    method InsertKey(x: BNode, k: int)
      requires Sound() && x in nodes && Mem()[x].leaf && |Mem()[x].keys| < 2 * t - 1
      modifies repr
      ensures Sound() && Mem() == old(Mem())[x := Inserted(old(Mem())[x], k)]
    {
      hide Sound, BNode.Look, BNode.Ok;
      OwnArrays(x);
      x.InsertKey(t, k);
      OnlyChanged(x);
    }

    method RemoveKey(x: BNode, i: int)
      requires Sound() && x in nodes && Mem()[x].leaf && 0 <= i < |Mem()[x].keys|
      modifies repr
      ensures Sound() && Mem() == old(Mem())[x := Removed(old(Mem())[x], i)]
    {
      hide Sound, BNode.Look, BNode.Ok;
      OwnArrays(x);
      x.RemoveKey(t, i);
      OnlyChanged(x);
    }

    method OpenSlot(x: BNode, i: int, k: int, z: BNode)
      requires Sound() && x in nodes && !Mem()[x].leaf && 0 <= i <= |Mem()[x].keys| < 2 * t - 1
      modifies repr
      ensures Sound() && Mem() == old(Mem())[x := SlotOpened(old(Mem())[x], i, k, z)]
    {
      hide Sound, BNode.Look, BNode.Ok;
      OwnArrays(x);
      x.OpenSlot(t, i, k, z);
      OnlyChanged(x);
    }

    method CloseSlot(x: BNode, i: int)
      requires Sound() && x in nodes && !Mem()[x].leaf && 0 <= i < |Mem()[x].keys|
      modifies repr
      ensures Sound() && Mem() == old(Mem())[x := SlotClosed(old(Mem())[x], i)]
    {
      hide Sound, BNode.Look, BNode.Ok;
      OwnArrays(x);
      x.CloseSlot(t, i);
      OnlyChanged(x);
    }

    method SetKey(x: BNode, i: int, k: int)
      requires Sound() && x in nodes && 0 <= i < |Mem()[x].keys|
      modifies repr
      ensures Sound() && Mem() == old(Mem())[x := old(Mem())[x].(keys := old(Mem())[x].keys[i := k])]
    {
      hide Sound, BNode.Look, BNode.Ok;
      OwnArrays(x);
      x.SetKey(t, i, k);
      OnlyChanged(x);
    }

    method Append(x: BNode, k: int, c: BNode?)
      requires Sound() && x in nodes && |Mem()[x].keys| < 2 * t - 1 && (Mem()[x].leaf ==> c == null)
      modifies repr
      ensures Sound() && Mem() == old(Mem())[x := AtBack(old(Mem())[x], k, c)]
    {
      hide Sound, BNode.Look, BNode.Ok;
      OwnArrays(x);
      x.Append(t, k, c);
      OnlyChanged(x);
    }

    method Prepend(x: BNode, k: int, c: BNode?)
      requires Sound() && x in nodes && |Mem()[x].keys| < 2 * t - 1 && (Mem()[x].leaf ==> c == null)
      modifies repr
      ensures Sound() && Mem() == old(Mem())[x := AtFront(old(Mem())[x], k, c)]
    {
      hide Sound, BNode.Look, BNode.Ok;
      OwnArrays(x);
      x.Prepend(t, k, c);
      OnlyChanged(x);
    }

    method DropFirst(x: BNode)
      requires Sound() && x in nodes && Mem()[x].keys != []
      modifies repr
      ensures Sound() && Mem() == old(Mem())[x := WithoutFirst(old(Mem())[x])]
    {
      hide Sound, BNode.Look, BNode.Ok;
      OwnArrays(x);
      x.DropFirst(t);
      OnlyChanged(x);
    }

    method DropLast(x: BNode)
      requires Sound() && x in nodes && Mem()[x].keys != []
      modifies repr
      ensures Sound() && Mem() == old(Mem())[x := WithoutLast(old(Mem())[x])]
    {
      hide Sound, BNode.Look, BNode.Ok;
      OwnArrays(x);
      x.DropLast(t);
      OnlyChanged(x);
    }

    // ---------- Insertion ----------

    // The first half of btree_split_child.
    method NewHalf(y: BNode) returns (z: BNode)
      requires Sound() && y in nodes && |Mem()[y].keys| == 2 * t - 1
      modifies this`nodes, this`repr, this`owner, repr
      ensures Sound() && z !in old(nodes) && nodes == old(nodes) + {z} && fresh(repr - old(repr))
      ensures Mem() == old(Mem())[z := UpperHalf(t, old(Mem())[y])]
    {
      hide Sound, BNode.Ok, BNode.Look, Mem, UpperHalf;
      Fields(y);
      z := CreateNode(y.leaf);
      TakeUpper(z, y);
    }

    // btree_split_child for the full kid `y` of `x`.
    method SplitChild(x: BNode, i: int, y: BNode) returns (z: BNode)
      requires Sound() && x in nodes && y in nodes && x != y && |Mem()[y].keys| == 2 * t - 1
      requires !Mem()[x].leaf && 0 <= i <= |Mem()[x].keys| < 2 * t - 1 && Mem()[x].kids[i] == y
      modifies this`nodes, this`repr, this`owner, repr
      ensures Sound() && z !in old(nodes) && nodes == old(nodes) + {z} && fresh(repr - old(repr))
      ensures Mem() == SplitMem(old(Mem()), t, x, i, y, z)
    {
      hide Sound, BNode.Ok, BNode.Look, Mem, LowerHalf, UpperHalf, SlotOpened;
      Fields(y);
      var up := y.keys[t - 1];
      z := NewHalf(y);
      KeepLower(y);
      OpenSlot(x, i, up, z);
    }

    method SplitKid(x: BNode, i: int, ghost tr: Tr) returns (ghost tr': Tr)
      requires Sound() && Rep(Mem(), tr) && tr.n == x && 0 <= i < |tr.kids| == |tr.keys| + 1 <= 2 * t - 1
      requires |tr.kids[i].keys| == 2 * t - 1
      modifies this`nodes, this`repr, this`owner, repr
      ensures Sound() && old(nodes) <= nodes && fresh(repr - old(repr))
      ensures Rep(Mem(), tr') && tr'.n == x && |Value(tr).kids[i].keys| == 2 * t - 1 && Value(tr') == Split(t, Value(tr), i)
      ensures Agree(old(Mem()), Mem(), old(nodes) - Ids(tr)) && Drawn(old(Mem()), Ids(tr'), Ids(tr))
    {
      hide Sound, BNode.Ok, BNode.Look, Mem, LowerHalf, UpperHalf, SlotOpened, Split, RepAll, IdsAll;
      ghost var m := Mem();
      KidRep(m, tr, i);
      Fields(x);
      Fields(tr.kids[i].n);
      var y: BNode := x.childrens[i];
      assert Fit(m[y]);
      var z := SplitChild(x, i, y);
      SplitRep(m, t, tr, i, z);
      SplitValue(t, tr, i, z);
      tr' := SplitTr(t, tr, i, z);
    }

    // btree_insert_nonfull
    method InsertNonfull(x: BNode, k: int, ghost h: nat, ghost tr: Tr) returns (ghost tr': Tr)
      requires Sound() && Rep(Mem(), tr) && tr.n == x && Shape(t, Value(tr), h, 0) && |tr.keys| < 2 * t - 1
      modifies this`nodes, this`repr, this`owner, repr
      ensures Sound() && old(nodes) <= nodes && fresh(repr - old(repr))
      ensures Rep(Mem(), tr') && tr'.n == x && Value(tr') == BtModel.InsertNonfull(t, h, Value(tr), k)
      ensures Agree(old(Mem()), Mem(), old(nodes) - Ids(tr)) && Drawn(old(Mem()), Ids(tr'), Ids(tr))
      decreases h
    {
      hide Sound, BNode.Ok, BNode.Look, Mem, Rep, Ids, SlotNode, SlotKid;
      Behind(tr);
      if x.leaf {
        tr' := InsertIntoLeaf(x, k, tr);
      } else {
        SlotShape(t, Value(tr), h, 0, k);
        var i; ghost var tr1;
        i, tr1 := MakeRoom(x, k, h, tr);
        ghost var m0, m1 := old(Mem()), Mem();
        Behind(tr1);
        KidRep(m1, tr1, i);
        ValuesAt(tr1.kids, i);
        ghost var c := InsertNonfull(x.childrens[i], k, h - 1, tr1.kids[i]);
        tr' := WithTr(tr1, i, c);
        RepWith(m1, Mem(), tr1, i, c);
        WithTrValue(tr1, i, c);
        DrawnTwice(m0, m1, Ids(tr), Ids(tr1), Ids(tr'));
        AgreeTwice(m0, m1, Mem(), Ids(tr), Ids(tr1.kids[i]));
      }
    }

    // The fields of the node behind `tr`.
    lemma Behind(tr: Tr)
      requires Sound() && Rep(Mem(), tr)
      ensures tr.n in nodes && tr.n.num == |tr.keys| && (tr.n.leaf <==> tr.kids == [])
      ensures tr.n.num < tr.n.keys.Length + 1 && tr.n.num < tr.n.childrens.Length
      ensures forall i :: 0 <= i < |tr.keys| ==> tr.n.keys[i] == tr.keys[i]
      ensures tr.kids != [] ==> |tr.kids| == |tr.keys| + 1
      ensures forall i :: 0 <= i < |tr.kids| ==> tr.n.childrens[i] == tr.kids[i].n
      ensures tr.kids == [] ==> forall i :: 0 <= i <= |tr.keys| ==> tr.n.childrens[i] == null
      ensures Mem()[tr.n] == ImageOf(tr) && tr.n.Look(t) == ImageOf(tr) && tr.n.Ok(t)
    {
      hide BNode.Ok, BNode.Look;
      Fields(tr.n);
      assert forall i :: 0 <= i < |tr.kids| ==> Tops(tr.kids)[i] == tr.kids[i].n;
    }

    method InsertIntoLeaf(x: BNode, k: int, ghost tr: Tr) returns (ghost tr': Tr)
      requires Sound() && Rep(Mem(), tr) && tr.n == x && tr.kids == [] && |tr.keys| < 2 * t - 1
      modifies repr
      ensures Sound() && Rep(Mem(), tr') && Ids(tr') == Ids(tr)
      ensures var i := Slot(tr.keys, k); tr' == Tr(x, tr.keys[..i] + [k] + tr.keys[i..], [])
      ensures Agree(old(Mem()), Mem(), old(nodes) - Ids(tr))
    {
      hide Sound, BNode.Ok, BNode.Look, Mem;
      Behind(tr);
      InsertKey(x, k);
      var i := Slot(tr.keys, k);
      tr' := Tr(x, tr.keys[..i] + [k] + tr.keys[i..], []);
    }

    // Find the kid to enter, and split it if it is full.
    method MakeRoom(x: BNode, k: int, ghost h: nat, ghost tr: Tr) returns (i: nat, ghost tr': Tr)
      requires Sound() && Rep(Mem(), tr) && tr.n == x && h > 0 && Shape(t, Value(tr), h, 0) && |tr.keys| < 2 * t - 1
      modifies this`nodes, this`repr, this`owner, repr
      ensures Sound() && old(nodes) <= nodes && fresh(repr - old(repr))
      ensures Rep(Mem(), tr') && tr'.n == x && Value(tr') == SlotNode(t, Value(tr), k)
      ensures i == SlotKid(t, Value(tr), k)
      ensures Agree(old(Mem()), Mem(), old(nodes) - Ids(tr)) && Drawn(old(Mem()), Ids(tr'), Ids(tr))
    {
      hide Sound, BNode.Ok, BNode.Look, Mem, Rep, Ids;
      Behind(tr);
      i := x.FindSlot(t, k);
      tr' := tr;
      KidRep(Mem(), tr, i);
      Behind(tr.kids[i]);
      ValuesAt(tr.kids, i);
      if x.childrens[i].num == 2 * t - 1 {
        tr' := SplitKid(x, i, tr);
        Behind(tr');
        if k > x.keys[i] { i := i + 1; }
      }
    }

    // btree_insert
    method Insert(key: int)
      requires Valid() && root != null
      modifies this, repr
      ensures Valid() && t == old(t) && fresh(repr - old(repr))
      ensures View() == BtHistory.AfterInsert(t, old(View()), key)
    {
      hide Sound, BNode.Ok, BNode.Look, Mem, Rep, Ids, Shape, BtModel.Insert, BtModel.InsertNonfull;
      Behind(tree);
      BtHistory.InsertKeeps(t, View(), key);
      if root.num == 2 * t - 1 {
        InsertUnderNewRoot(key);
      } else {
        InsertNotFull(t, height, Value(tree), key);
        tree := InsertNonfull(root, key, height, tree);
      }
    }

    method InsertUnderNewRoot(key: int)
      requires Valid() && root != null && |tree.keys| == 2 * t - 1
      modifies this, repr
      ensures Sound() && fresh(repr - old(repr)) && t == old(t) && root != null && height == old(height) + 1
      ensures Rep(Mem(), tree) && tree.n == root
      ensures Value(tree) == BtModel.Insert(t, old(height), old(Value(tree)), key)
    {
      hide Sound, BNode.Ok, BNode.Look, Mem, Rep, Ids, Shape, Split, WithKid, BtModel.Insert, BtModel.InsertNonfull;
      InsertFull(t, height, Value(tree), key);
      ghost var top := RaiseRoot();
      tree := InsertBelow(key, height, top);
      height := height + 1;
    }

    // The new root has one key and two kids that are not full.
    method InsertBelow(key: int, ghost h: nat, ghost top: Tr) returns (ghost top': Tr)
      requires Sound() && root != null && Rep(Mem(), top) && top.n == root && |top.keys| == 1 && |top.kids| == 2
      requires forall i: nat :: i < 2 ==> Shape(t, Value(top).kids[i], h, 0) && |Value(top).kids[i].keys| < 2 * t - 1
      modifies this`nodes, this`repr, this`owner, repr
      ensures Sound() && fresh(repr - old(repr)) && Rep(Mem(), top') && top'.n == root
      ensures var i := if top.keys[0] < key then 1 else 0;
        Value(top') == WithKid(Value(top), i, BtModel.InsertNonfull(t, h, Value(top).kids[i], key))
    {
      hide Sound, BNode.Ok, BNode.Look, Mem, Rep, Ids;
      ghost var m := Mem();
      Behind(top);
      var i := 0;
      if root.keys[0] < key { i := 1; }
      KidRep(m, top, i);
      ValuesAt(top.kids, i);
      assert Value(top).kids[i] == Value(top.kids[i]);
      ghost var c := InsertNonfull(root.childrens[i], key, h, top.kids[i]);
      RepWith(m, Mem(), top, i, c);
      WithTrValue(top, i, c);
      top' := WithTr(top, i, c);
    }

    // A full root gets a new root above it, and is split.
    method RaiseRoot() returns (ghost top: Tr)
      requires Valid() && root != null && |tree.keys| == 2 * t - 1
      modifies this`root, this`nodes, this`repr, this`owner, repr
      ensures Sound() && root != null && fresh(repr - old(repr))
      ensures Rep(Mem(), top) && top.n == root && |top.keys| == 1 && |top.kids| == 2
      ensures Value(top) == Split(t, Node([], [old(Value(tree))]), 0)
    {
      hide Sound, BNode.Ok, BNode.Look, Mem;
      Behind(tree);
      var r: BNode := root;
      var node; ghost var bare;
      node, bare := NewRoot(r);
      ValuesOne(tree);
      root := node;
      Behind(bare);
      top := SplitKid(node, 0, bare);
    }

    method NewRoot(r: BNode) returns (node: BNode, ghost bare: Tr)
      requires Sound() && Rep(Mem(), tree) && tree.n == r
      modifies this`nodes, this`repr, this`owner, repr
      ensures Sound() && fresh(repr - old(repr))
      ensures bare == Tr(node, [], [tree]) && Rep(Mem(), bare)
    {
      hide Sound, BNode.Ok, BNode.Look, Mem;
      ghost var m := Mem();
      RepKnown(m, tree);
      node := CreateNode(false);
      SetFirst(node, r);
      bare := Tr(node, [], [tree]);
      RepFrame(m, Mem(), tree);
      RepOne(Mem(), tree);
    }

    // ---------- Deletion ----------

    // btree_merge; a root that loses its only key gives way to the merged kid.
    method Merge(x: BNode, i: nat, ghost h: nat, ghost tr: Tr) returns (ghost tr': Tr)
      requires Sound() && Rep(Mem(), tr) && tr.n == x && h > 0 && Shape(t, Value(tr), h, 1) && i < |tr.keys|
      requires i + 1 < |tr.kids| && |tr.kids[i].keys| == |tr.kids[i + 1].keys| == t - 1
      modifies this`root, repr
      ensures Sound() && Rep(Mem(), tr') && tr'.n == x && Value(tr') == BtDelete.Merge(Value(tr), i)
      ensures i < |tr'.kids| && tr'.kids[i].n == tr.kids[i].n && |tr'.keys| == |tr.keys| - 1
      ensures Agree(old(Mem()), Mem(), nodes - Ids(tr)) && Drawn(old(Mem()), Ids(tr'), Ids(tr))
      ensures root == if |tr.keys| == 1 then tr.kids[i].n else old(root)
    {
      hide Sound, BNode.Ok, BNode.Look, Mem, Rep, Ids, MergeTr, MergeMem, BtDelete.Merge;
      ghost var m := Mem();
      Behind(tr);
      KidsAlike(t, tr, h, i);
      KidRep(m, tr, i);
      KidRep(m, tr, i + 1);
      TwoKidsApart(m, tr, i);
      Behind(tr.kids[i]);
      Behind(tr.kids[i + 1]);
      var left: BNode, right: BNode := x.childrens[i], x.childrens[i + 1];
      MergeNodes(x, i, left, right);
      MergeRep(m, tr, i);
      MergeValue(tr, i);
      tr' := MergeTr(tr, i);
      Behind(tr');
      if x.num == 0 { root := left; }
    }

    method MergeNodes(x: BNode, i: nat, left: BNode, right: BNode)
      requires Sound() && x in nodes && left in nodes && right in nodes && left != right && x != left
      requires !Mem()[x].leaf && i < |Mem()[x].keys| && Mem()[left].leaf == Mem()[right].leaf
      requires |Mem()[left].keys| == |Mem()[right].keys| == t - 1
      modifies repr
      ensures Sound() && Mem() == MergeMem(old(Mem()), x, i, left, right)
    {
      hide Sound, BNode.Ok, BNode.Look, Mem, Absorbed, SlotClosed;
      Fields(x);
      Absorb(left, x.keys[i], right);
      CloseSlot(x, i);
    }

    // Borrow from the next kid.
    method BorrowRight(x: BNode, i: nat, ghost h: nat, ghost tr: Tr) returns (ghost tr': Tr)
      requires Sound() && Rep(Mem(), tr) && tr.n == x && h > 0 && Shape(t, Value(tr), h, 1) && i < |tr.keys|
      requires i + 1 < |tr.kids| && |tr.kids[i].keys| == t - 1 && |tr.kids[i + 1].keys| >= t
      modifies repr
      ensures Sound() && Rep(Mem(), tr') && tr'.n == x && Internal(Value(tr)) && Value(tr).kids[i + 1].keys != []
      ensures Value(tr') == BtDelete.BorrowRight(Value(tr), i)
      ensures i < |tr'.kids| && tr'.kids[i].n == tr.kids[i].n && tr'.keys != []
      ensures Agree(old(Mem()), Mem(), nodes - Ids(tr)) && Drawn(old(Mem()), Ids(tr'), Ids(tr))
    {
      hide Sound, BNode.Ok, BNode.Look, Mem, Rep, Ids, RightMem, BorrowRightTr, BtDelete.BorrowRight;
      ghost var m, c, r := Mem(), tr.kids[i], tr.kids[i + 1];
      Behind(tr);
      KidsAlike(t, tr, h, i);
      KidRep(m, tr, i);
      KidRep(m, tr, i + 1);
      TwoKidsApart(m, tr, i);
      Behind(c);
      Behind(r);
      var child: BNode, right: BNode := x.childrens[i], x.childrens[i + 1];
      BorrowRightNodes(x, i, child, right);
      BorrowRightRep(m, tr, i);
      BorrowRightValue(tr, i);
      tr' := BorrowRightTr(tr, i);
    }

    method BorrowRightNodes(x: BNode, i: nat, child: BNode, right: BNode)
      requires Sound() && x in nodes && child in nodes && right in nodes
      requires x != child && child != right && x != right && i < |Mem()[x].keys|
      requires |Mem()[child].keys| == t - 1 && |Mem()[right].keys| >= t && Mem()[child].leaf == Mem()[right].leaf
      modifies repr
      ensures Sound() && Mem() == RightMem(old(Mem()), x, i, child, right)
    {
      hide Sound, BNode.Ok, BNode.Look, Mem, AtBack, WithoutFirst, PairMem;
      ghost var m := Mem();
      Fields(x);
      Fields(right);
      var k, first := x.keys[i], right.keys[0];
      Append(child, k, right.childrens[0]);
      SetKey(x, i, first);
      DropFirst(right);
      PairSteps(m, x, i, child, AtBack(m[child], k, FirstKid(m[right])), first, right, WithoutFirst(m[right]));
    }

    // Borrow from the previous kid.
    method BorrowLeft(x: BNode, i: nat, ghost h: nat, ghost tr: Tr) returns (ghost tr': Tr)
      requires Sound() && Rep(Mem(), tr) && tr.n == x && h > 0 && Shape(t, Value(tr), h, 1) && 0 < i <= |tr.keys|
      requires i < |tr.kids| && |tr.kids[i].keys| == t - 1 && |tr.kids[i - 1].keys| >= t
      modifies repr
      ensures Sound() && Rep(Mem(), tr') && tr'.n == x && Internal(Value(tr)) && Value(tr).kids[i - 1].keys != []
      ensures Value(tr') == BtDelete.BorrowLeft(Value(tr), i)
      ensures i < |tr'.kids| && tr'.kids[i].n == tr.kids[i].n && tr'.keys != []
      ensures Agree(old(Mem()), Mem(), nodes - Ids(tr)) && Drawn(old(Mem()), Ids(tr'), Ids(tr))
    {
      hide Sound, BNode.Ok, BNode.Look, Mem, Rep, Ids, LeftMem, BorrowLeftTr, BtDelete.BorrowLeft;
      ghost var m, l, c := Mem(), tr.kids[i - 1], tr.kids[i];
      Behind(tr);
      KidsAlike(t, tr, h, i - 1);
      KidRep(m, tr, i - 1);
      KidRep(m, tr, i);
      TwoKidsApart(m, tr, i - 1);
      Behind(l);
      Behind(c);
      var left: BNode, child: BNode := x.childrens[i - 1], x.childrens[i];
      BorrowLeftNodes(x, i, left, child);
      BorrowLeftRep(m, tr, i);
      BorrowLeftValue(tr, i);
      tr' := BorrowLeftTr(tr, i);
    }

    method BorrowLeftNodes(x: BNode, i: nat, left: BNode, child: BNode)
      requires Sound() && x in nodes && left in nodes && child in nodes
      requires x != child && child != left && x != left && 0 < i <= |Mem()[x].keys|
      requires |Mem()[child].keys| == t - 1 && |Mem()[left].keys| >= t && Mem()[child].leaf == Mem()[left].leaf
      modifies repr
      ensures Sound() && Mem() == LeftMem(old(Mem()), x, i, left, child)
    {
      hide Sound, BNode.Ok, BNode.Look, Mem, AtFront, WithoutLast, LeftMem;
      ghost var m: Mem := Mem();
      Fields(x);
      Fields(left);
      var k, last, c := x.keys[i - 1], left.keys[left.num - 1], left.childrens[left.num];
      LeftSteps(m, x, i, left, child, k, last, c);
      Prepend(child, k, c);
      SetKey(x, i - 1, last);
      assert Mem() == m[child := AtFront(m[child], k, c)][x := m[x].(keys := m[x].keys[i - 1 := last])];
      DropLast(left);
    }

    // Bring kid `i` up to t keys before the search for `key` enters it.
    method Refill(x: BNode, i: nat, ghost h: nat, ghost tr: Tr, key: int)
      returns (child: BNode, k: int, ghost tr': Tr, ghost next: Next)
      requires Sound() && Rep(Mem(), tr) && tr.n == x && h > 0 && Shape(t, Value(tr), h, 1) && i <= |tr.keys|
      modifies this`root, repr
      ensures Sound() && Rep(Mem(), tr') && tr'.n == x
      ensures Internal(Value(tr)) && Value(tr).keys != [] && next == BtDelete.Refill(t, Value(tr), i, key) && !next.Done?
      ensures next.b == Value(tr') && next.k == k && next.i < |tr'.kids| && child == tr'.kids[next.i].n
      ensures Agree(old(Mem()), Mem(), nodes - Ids(tr)) && Drawn(old(Mem()), Ids(tr'), Ids(tr))
      ensures root == if tr'.keys == [] then child else old(root)
    {
      hide Sound, BNode.Ok, BNode.Look, Mem, Rep, Ids, BtDelete.Merge, BtDelete.BorrowLeft, BtDelete.BorrowRight;
      Behind(tr);
      KidsAlike(t, tr, h, i);
      KidFields(tr, i);
      child, k, tr' := x.childrens[i], key, tr;
      ghost var j := i;
      if child.num == t - 1 {
        var left: BNode? := null;
        var right: BNode? := null;
        if i >= 1 {
          KidFields(tr, i - 1);
          left := x.childrens[i - 1];
        }
        if i + 1 <= x.num {
          KidFields(tr, i + 1);
          right := x.childrens[i + 1];
        }
        child, tr', j := Rebalance(x, i, child, left, right, h, tr, key);
      }
      next := Into(Value(tr'), j, key);
    }

    lemma KidFields(tr: Tr, i: nat)
      requires Sound() && Rep(Mem(), tr) && i < |tr.kids|
      ensures tr.kids[i].n in nodes && tr.kids[i].n.num == |tr.kids[i].keys|
      ensures Rep(Mem(), tr.kids[i]) && tr.kids[i].n.num <= tr.kids[i].n.keys.Length
      ensures forall j :: 0 <= j < |tr.kids[i].keys| ==> tr.kids[i].n.keys[j] == tr.kids[i].keys[j]
    {
      hide Sound, BNode.Ok, BNode.Look, Mem;
      KidRep(Mem(), tr, i);
      Behind(tr.kids[i]);
    }

    // Kid `i` has t - 1 keys: borrow from a neighbour that can spare one, or merge.
    method Rebalance(x: BNode, i: nat, child: BNode, left: BNode?, right: BNode?,
                     ghost h: nat, ghost tr: Tr, ghost key: int)
      returns (child': BNode, ghost tr': Tr, ghost j: nat)
      requires Sound() && Rep(Mem(), tr) && tr.n == x && h > 0 && Shape(t, Value(tr), h, 1) && i <= |tr.keys|
      requires |tr.kids| == |tr.keys| + 1 && child == tr.kids[i].n && child.num == |tr.kids[i].keys| == t - 1
      requires left == if i > 0 then tr.kids[i - 1].n else null
      requires right == if i < |tr.keys| then tr.kids[i + 1].n else null
      requires left != null ==> left.num == |tr.kids[i - 1].keys|
      requires right != null ==> right.num == |tr.kids[i + 1].keys|
      modifies this`root, repr
      ensures Sound() && Rep(Mem(), tr') && tr'.n == x && j < |tr'.kids| && child' == tr'.kids[j].n
      ensures Internal(Value(tr)) && Value(tr).keys != []
      ensures BtDelete.Refill(t, Value(tr), i, key) == Into(Value(tr'), j, key)
      ensures Agree(old(Mem()), Mem(), nodes - Ids(tr)) && Drawn(old(Mem()), Ids(tr'), Ids(tr))
      ensures root == if tr'.keys == [] then child' else old(root)
    {
      hide Sound, BNode.Ok, BNode.Look, Mem, Rep, Ids, Agree, Drawn, BtDelete.Merge, BtDelete.BorrowLeft, BtDelete.BorrowRight;
      RebalanceSpec(t, tr, i, h, key);
      child', j := child, i;
      if (left != null && left.num >= t) || (right != null && right.num >= t) {
        var richR := right != null;
        if left != null && right != null { richR := right.num > left.num; }
        if right != null && right.num >= t && richR {
          tr' := BorrowRight(x, i, h, tr);
        } else {
          tr' := BorrowLeft(x, i, h, tr);
        }
      } else if (left == null || left.num == t - 1) && (right == null || right.num == t - 1) {
        if left != null && left.num == t - 1 {
          tr' := Merge(x, i - 1, h, tr);
          child', j := left, i - 1;
        } else if right != null && right.num == t - 1 {
          tr' := Merge(x, i, h, tr);
        }
      }
    }

    // Key `i` of an internal node is to go: replace it by a key drawn from a kid that can spare
    // one, or merge it into the kids on both sides. `k` is the key to delete further down.
    method Draw(x: BNode, i: nat, ghost h: nat, ghost tr: Tr) returns (child: BNode, k: int, ghost tr': Tr, ghost next: Next)
      requires Sound() && Rep(Mem(), tr) && tr.n == x && h > 0 && Shape(t, Value(tr), h, 1) && i < |tr.keys|
      modifies this`root, repr
      ensures Sound() && Rep(Mem(), tr') && tr'.n == x
      ensures Internal(Value(tr)) && next == Found(t, Value(tr), i) && !next.Done?
      ensures next.b == Value(tr') && next.k == k && next.i < |tr'.kids| && child == tr'.kids[next.i].n
      ensures Agree(old(Mem()), Mem(), nodes - Ids(tr)) && Drawn(old(Mem()), Ids(tr'), Ids(tr))
      ensures root == if tr'.keys == [] then child else old(root)
    {
      hide Sound, BNode.Ok, BNode.Look, Mem, Rep, Ids, BtDelete.Merge;
      Behind(tr);
      KidsAlike(t, tr, h, i);
      KidsAlike(t, tr, h, i + 1);
      next := Found(t, Value(tr), i);
      KidFields(tr, i);
      KidFields(tr, i + 1);
      var left: BNode, right: BNode := x.childrens[i], x.childrens[i + 1];
      k := x.keys[i];
      if left.num >= t {
        child, k := left, left.keys[left.num - 1];
        tr' := ReplaceKey(x, i, k, tr);
      } else if right.num >= t {
        child, k := right, right.keys[0];
        tr' := ReplaceKey(x, i, k, tr);
      } else {
        child := left;
        tr' := Merge(x, i, h, tr);
      }
    }

    method ReplaceKey(x: BNode, i: nat, k: int, ghost tr: Tr) returns (ghost tr': Tr)
      requires Sound() && Rep(Mem(), tr) && tr.n == x && i < |tr.keys|
      modifies repr
      ensures Sound() && Rep(Mem(), tr') && tr' == Tr(x, tr.keys[i := k], tr.kids)
      ensures Agree(old(Mem()), Mem(), nodes - Ids(tr)) && Drawn(old(Mem()), Ids(tr'), Ids(tr))
    {
      hide Sound, BNode.Ok, BNode.Look, Mem;
      Behind(tr);
      ghost var m := Mem();
      SetKey(x, i, k);
      tr' := WithKeys(tr, tr.keys[i := k]);
      RepWithKeys(m, tr, tr.keys[i := k]);
    }

    // btree_delete_key. The recursive calls of its branches are the one that Descend makes.
    method DeleteKey(node: BNode, key: int, ghost h: nat, ghost tr: Tr, ghost top: bool) returns (ghost tr': Tr)
      requires Sound() && Rep(Mem(), tr) && tr.n == node && Enterable(t, Value(tr), h, top)
      requires top ==> root == node
      modifies this`root, repr
      ensures Sound() && Rep(Mem(), tr') && Value(tr') == BtDelete.Delete(t, h, Value(tr), key, top)
      ensures Agree(old(Mem()), Mem(), nodes - Ids(tr)) && Drawn(old(Mem()), Ids(tr'), Ids(tr))
      ensures !top ==> tr'.n == node && root == old(root)
      ensures top ==> root == if h == 0 && tr'.keys == [] && tr.keys != [] then null else tr'.n
      decreases h, 1
    {
      hide Sound, BNode.Ok, BNode.Look, Mem, Rep, Ids, Enterable, BtDelete.Delete, Descended, CanDescend, Agree, Drawn;
      Behind(tr);
      ghost var m0 := Mem();
      TurnCases(t, tr, h, top, key);
      var idx := node.FindKey(t, key);
      var child, k; ghost var tr1, next;
      if idx < node.num && key == node.keys[idx] {
        if node.leaf {
          tr' := RemoveFromLeaf(node, idx, tr);
          return;
        }
        child, k, tr1, next := Draw(node, idx, h, tr);
      } else {
        if node.childrens[idx] == null {
          NothingMoved(m0, Ids(tr));
          return tr;
        }
        child, k, tr1, next := Refill(node, idx, h, tr, key);
      }
      ghost var m1 := Mem();
      tr' := Descend(child, k, h, tr1, next);
      AgreeTwice(m0, m1, Mem(), Ids(tr), Ids(tr1));
      DrawnTwice(m0, m1, Ids(tr), Ids(tr1), Ids(tr'));
    }

    method Descend(child: BNode, k: int, ghost h: nat, ghost tr: Tr, ghost next: Next) returns (ghost tr': Tr)
      requires Sound() && Rep(Mem(), tr) && CanDescend(t, h, next) && next.b == Value(tr) && next.k == k
      requires next.i < |tr.kids| == |tr.keys| + 1 && child == tr.kids[next.i].n
      modifies this`root, repr
      ensures Sound() && Rep(Mem(), tr')
      ensures Value(tr') == Descended(t, h, next)
      ensures Agree(old(Mem()), Mem(), nodes - Ids(tr)) && Drawn(old(Mem()), Ids(tr'), Ids(tr))
      ensures root == old(root) && tr'.n == if tr.keys == [] then child else tr.n
      decreases h, 0
    {
      hide Sound, BNode.Ok, BNode.Look, Mem, Rep, Ids, Enterable, BtDelete.Delete;
      ghost var m, c := Mem(), tr.kids[next.i];
      KidRep(m, tr, next.i);
      ValuesAt(tr.kids, next.i);
      ghost var c' := DeleteKey(child, k, h - 1, c, false);
      RepWith(m, Mem(), tr, next.i, c');
      WithTrValue(tr, next.i, c');
      tr' := if tr.keys == [] then c' else WithTr(tr, next.i, c');
    }

    method RemoveFromLeaf(node: BNode, idx: nat, ghost tr: Tr) returns (ghost tr': Tr)
      requires Sound() && Rep(Mem(), tr) && tr.n == node && tr.kids == [] && idx < |tr.keys|
      modifies this`root, repr
      ensures Sound() && Rep(Mem(), tr') && tr' == Tr(node, tr.keys[..idx] + tr.keys[idx + 1..], [])
      ensures Agree(old(Mem()), Mem(), nodes - Ids(tr)) && Drawn(old(Mem()), Ids(tr'), Ids(tr))
      ensures root == if tr'.keys == [] then null else old(root)
    {
      hide Sound, BNode.Ok, BNode.Look, Mem;
      Behind(tr);
      RemoveKey(node, idx);
      tr' := Tr(node, tr.keys[..idx] + tr.keys[idx + 1..], []);
      Behind(tr');
      if node.num == 0 { root := null; }
    }

    // btree_delete: -1 when there is no tree.
    method Delete(key: int) returns (r: int)
      requires Valid()
      modifies this, repr
      ensures Valid() && t == old(t) && repr == old(repr) && View() == BtHistory.AfterDelete(t, old(View()), key)
      ensures r == if old(root) == null then -1 else 0
    {
      hide Sound, BNode.Ok, BNode.Look, Mem, Rep, Ids, BtDelete.Delete;
      if root == null { return -1; }
      BtHistory.DeleteKeepsShape(t, View(), key);
      ghost var b := Value(tree);
      tree := DeleteKey(root, key, height, tree, true);
      height := if height > 0 && Collapses(t, b) then height - 1 else height;
      return 0;
    }

    // btree_traverse, with its output as a sequence.
    method Traverse(x: BNode, ghost h: nat, ghost tr: Tr) returns (out: seq<int>)
      requires Sound() && Rep(Mem(), tr) && tr.n == x && Shape(t, Value(tr), h, 0)
      ensures out == Flat(Value(tr))
      decreases h
    {
      hide Sound, BNode.Ok, BNode.Look, Mem, Rep, Ids, Flat, Front, Shape;
      Behind(tr);
      TraverseShape(t, tr, h);
      ghost var b := Value(tr);
      PrintedAll(b);
      var i := 0;
      out := [];
      while i < x.num
        invariant 0 <= i <= x.num && out == Printed(b, i)
      {
        PrintedMore(b, i);
        if !x.leaf {
          KidRep(Mem(), tr, i);
          var sub := Traverse(x.childrens[i], h - 1, tr.kids[i]);
          out := out + sub;
        }
        out := out + [x.keys[i]];
        i := i + 1;
      }
      if !x.leaf {
        KidRep(Mem(), tr, i);
        var sub := Traverse(x.childrens[i], h - 1, tr.kids[i]);
        out := out + sub;
      }
    }

    // A whole history of calls.
    method Serve(ops: seq<BtHistory.Op>)
      requires Valid() && BtHistory.Supported(t, View(), ops)
      modifies this, repr
      ensures Valid() && t == old(t) && View() == BtHistory.Final(t, old(View()), ops)
    {
      hide Sound, Mem, Rep, BtHistory.AfterInsert, BtHistory.AfterDelete;
      var i := 0;
      while i < |ops|
        invariant 0 <= i <= |ops| && Valid() && t == old(t) && fresh(repr - old(repr))
        invariant BtHistory.Supported(t, View(), ops[i..])
        invariant BtHistory.Final(t, View(), ops[i..]) == BtHistory.Final(t, old(View()), ops)
      {
        assert ops[i..][0] == ops[i] && ops[i..][1..] == ops[i + 1..];
        match ops[i] {
          case Ins(k) => Insert(k);
          case Del(k) => var _ := Delete(k);
        }
        i := i + 1;
      }
    }
  }

  // The output after `i` rounds of the loop.
  ghost function Printed(b: Tree, i: nat): seq<int>
    requires i <= |b.keys|
  {
    if Internal(b) then Front(b.keys[..i], b.kids[..i]) else b.keys[..i]
  }

  lemma PrintedMore(b: Tree, i: nat)
    requires i < |b.keys|
    ensures Printed(b, i + 1) == Printed(b, i) + (if Internal(b) then Flat(b.kids[i]) else []) + [b.keys[i]]
  {
    if Internal(b) {
      assert b.keys[..i + 1] == b.keys[..i] + [b.keys[i]] && b.kids[..i + 1] == b.kids[..i] + [b.kids[i]];
      FrontConcat(b.keys[..i], b.kids[..i], [b.keys[i]], [b.kids[i]]);
      OneFront(b.keys[i], b.kids[i]);
      Assoc3(Printed(b, i), Flat(b.kids[i]), [b.keys[i]]);
    }
  }

  lemma PrintedAll(b: Tree)
    ensures Printed(b, 0) == []
    ensures Flat(b) == Printed(b, |b.keys|) + if Internal(b) then Flat(b.kids[|b.keys|]) else []
  {
    assert b.keys[..|b.keys|] == b.keys;
  }

  lemma TraverseShape(t: int, tr: Tr, h: nat)
    requires Shape(t, Value(tr), h, 0)
    ensures Internal(Value(tr)) <==> h > 0
    ensures tr.kids == [] <==> h == 0
    ensures h > 0 ==> |tr.kids| == |tr.keys| + 1
    ensures forall i: nat :: i < |tr.kids| ==>
      h > 0 && Value(tr).kids[i] == Value(tr.kids[i]) && Shape(t, Value(tr.kids[i]), h - 1, 0)
  {
    forall i: nat | i < |tr.kids|
      ensures h > 0 && Value(tr).kids[i] == Value(tr.kids[i]) && Shape(t, Value(tr.kids[i]), h - 1, 0)
    {
      ValuesAt(tr.kids, i);
      assert Shape(t, Value(tr).kids[i], h - 1, t - 1);
      ShapeMin(t, Value(tr).kids[i], h - 1, t - 1, 0);
    }
  }

  ghost predicate CanDescend(t: int, h: nat, next: Next) {
    t >= 2 && h > 0 && !next.Done? && next.i < |next.b.kids| && Enterable(t, next.b.kids[next.i], h - 1, false)
  }

  // The deletion in the kid that was reached, and the node around it.
  ghost function Descended(t: int, h: nat, next: Next): Tree
    requires CanDescend(t, h, next)
  {
    Close(next.b, next.i, BtDelete.Delete(t, h - 1, next.b.kids[next.i], next.k, false))
  }

  // What btree_delete_key does at a node, by what it finds there.
  lemma TurnCases(t: int, tr: Tr, h: nat, top: bool, key: int)
    requires t >= 2 && Enterable(t, Value(tr), h, top)
    ensures tr.kids == [] <==> h == 0
    ensures var b, i := Value(tr), Idx(tr.keys, key);
      if h > 0 then
        && Internal(b) && b.keys != [] && Shape(t, b, h, 1) && |tr.kids| == |tr.keys| + 1
        && var next := if i < |tr.keys| && tr.keys[i] == key then Found(t, b, i) else BtDelete.Refill(t, b, i, key);
        && !next.Done? && Internal(next.b) && next.i < |next.b.kids|
        && (next.b.keys == [] ==> top)
        && CanDescend(t, h, next) && BtDelete.Delete(t, h, b, key, top) == Descended(t, h, next)
      else if i < |tr.keys| && tr.keys[i] == key then
        BtDelete.Delete(t, h, b, key, top) == Node(tr.keys[..i] + tr.keys[i + 1..], [])
        && (!top ==> |tr.keys| > 1)
      else BtDelete.Delete(t, h, b, key, top) == b
  {
    hide BtDelete.Refill, Found, Close;
    var b, i := Value(tr), Idx(tr.keys, key);
    TurnShape(t, b, h, top, key);
    if h > 0 {
      FoundIsInto(t, b);
      DeleteUnfolds(t, h, b, key, top);
      ShapeMin(t, b, h, if top then 1 else t, 1);
    }
  }

  // The cases of Refill for a kid of t - 1 keys, by the sizes of its neighbours.
  lemma RebalanceSpec(t: int, tr: Tr, i: nat, h: nat, key: int)
    requires t >= 2 && h > 0 && Shape(t, Value(tr), h, 1) && i <= |tr.keys| && |tr.kids| == |tr.keys| + 1
    requires |tr.kids[i].keys| == t - 1
    ensures Internal(Value(tr)) && Value(tr).keys != [] && tr.keys != []
    ensures i > 0 ==> |Value(tr).kids[i - 1].keys| == |tr.kids[i - 1].keys| >= t - 1
    ensures i < |tr.keys| ==> |Value(tr).kids[i + 1].keys| == |tr.kids[i + 1].keys| >= t - 1
    ensures
      var b, n := Value(tr), |tr.keys|;
      var next := BtDelete.Refill(t, b, i, key);
      if (i > 0 && |tr.kids[i - 1].keys| >= t) || (i < n && |tr.kids[i + 1].keys| >= t) then
        if i < n && |tr.kids[i + 1].keys| >= t && (i == 0 || |tr.kids[i + 1].keys| > |tr.kids[i - 1].keys|)
        then next == Into(BtDelete.BorrowRight(b, i), i, key)
        else i > 0 && |tr.kids[i - 1].keys| >= t && next == Into(BtDelete.BorrowLeft(b, i), i, key)
      else if i > 0 then next == Into(BtDelete.Merge(b, i - 1), i - 1, key)
      else next == Into(BtDelete.Merge(b, i), i, key)
  {
    hide BtDelete.Merge, BtDelete.BorrowLeft, BtDelete.BorrowRight;
    KidsAlike(t, tr, h, i);
    if i > 0 { KidsAlike(t, tr, h, i - 1); }
    if i < |tr.keys| { KidsAlike(t, tr, h, i + 1); }
  }

  // The kids of a well-shaped node are well-shaped, and leaves or not all together.
  lemma KidsAlike(t: int, tr: Tr, h: nat, i: nat)
    requires h > 0 && Shape(t, Value(tr), h, 1) && i < |tr.kids|
    ensures |tr.kids| == |tr.keys| + 1 && Value(tr).kids[i] == Value(tr.kids[i])
    ensures t - 1 <= |tr.kids[i].keys| <= 2 * t - 1 && (tr.kids[i].kids == [] <==> h == 1)
    ensures Shape(t, Value(tr.kids[i]), h - 1, t - 1)
    ensures i + 1 < |tr.kids| ==> (tr.kids[i + 1].kids == [] <==> h == 1)
  {
    ValuesAt(tr.kids, i);
    assert Value(tr).kids[i] == Value(tr.kids[i]);
    if i + 1 < |tr.kids| {
      ValuesAt(tr.kids, i + 1);
      assert Value(tr).kids[i + 1] == Value(tr.kids[i + 1]);
    }
  }
}
