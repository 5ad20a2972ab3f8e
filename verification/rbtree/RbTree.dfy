// The red-black tree of rbtree/main.cpp, updated in place.

module RbTrees {
  import opened RbModel
  import opened RbMemory

  // One request of a caller: add a node, or remove a key if it is there.
  datatype Op = Put(node: Node, k: int, v: Value) | Drop(k: int)

  function Nodes(script: seq<Op>): set<Node> {
    set i | 0 <= i < |script| && script[i].Put? :: script[i].node
  }

  // What a request does to a plain map; a key that is already there keeps its value.
  function Applied(m: map<int, Value>, op: Op): map<int, Value> {
    match op
    case Put(_, k, v) => if k in m then m else m[k := v]
    case Drop(k) => m - {k}
  }

  function Expected(m: map<int, Value>, script: seq<Op>): map<int, Value>
    decreases |script|
  {
    if script == [] then m
    else Applied(Expected(m, script[..|script| - 1]), script[|script| - 1])
  }

  class RbTree {
    var root: Node
    const nil: Node

    // The tree the links represent, and the nodes it owns.
    ghost var tree: Tree
    ghost var nodes: set<Node>

    // How often a rotation was done.
    ghost var rotations: nat

    ghost function Snap(): Mem
      reads this`nodes, nil, nodes
    {
      map n: Node | n in nodes + {nil} :: Rec(n.color, n.left, n.right, n.parent, n.key, n.value)
    }

    // The links represent Plug(path, t), seen from the root of `t`.
    ghost predicate At(path: Path, t: Tree)
      reads this`root, this`nodes, nil, nodes
    {
      Zip(Snap(), nil, root, path, t) && nil !in nodes
    }

    constructor (sentinel: Node)
      modifies sentinel
      ensures Valid() && Contents() == map[] && nodes == {} && nil == sentinel
    {
      nil, root := sentinel, sentinel;
      tree, nodes, rotations := Nil, {}, 0;
      new;
      nil.color := Black;
    }

    // Field assignments, seen on the snapshot.

    method SetKid(x: Node, d: Dir, v: Node)
      requires x in nodes
      modifies x
      ensures x in old(Snap()) && Snap() == old(Snap())[x := WithKid(old(Snap())[x], d, v)]
    {
      if d.Left? { x.left := v; } else { x.right := v; }
    }

    method SetParent(x: Node, p: Node)
      requires x in nodes + {nil}
      modifies x
      ensures x in old(Snap()) && Snap() == WithParent(old(Snap()), x, p)
    {
      x.parent := p;
    }

    method Paint(x: Node, c: Color)
      requires x in nodes
      modifies x`color
      ensures x in old(Snap()) && Snap() == old(Snap())[x := old(Snap())[x].(c := c)]
    {
      x.color := c;
    }

    // Recolour the root of the focus.
    method SetColor(x: Node, c: Color, ghost path: Path, ghost t: Tree)
      requires At(path, t) && t.Bin? && t.cell.n == x && x in nodes
      modifies x`color
      ensures At(path, t.(cell := Painted(t.cell, c)))
    {
      ZipPaint(Snap(), nil, root, path, t, c);
      Paint(x, c);
    }

    // `v` takes the place of `u` below the parent of `u`; `u` itself is not changed.
    method Replace(u: Node, v: Node, ghost path: Path)
      requires u in nodes && v in nodes + {nil} && nil !in nodes
      requires u.parent == ParentOf(nil, path) && Hangs(Snap(), nil, path, u)
      requires v != u && (path.Step? ==> v != u.parent)
      modifies this`root, nodes, v
      ensures nil in old(Snap()) && v in old(Snap()) && (path.Step? ==> path.cell.n in old(Snap()))
      ensures Snap() == WithChild(WithParent(old(Snap()), v, ParentOf(nil, path)), path, v)
      ensures root == if path.Top? then v else old(root)
    {
      SetParent(v, u.parent);
      if u.parent == nil {
        root := v;
      } else if u == u.parent.left {
        SetKid(u.parent, Left, v);
      } else {
        SetKid(u.parent, Right, v);
      }
    }

    // The assignments of a left rotation, without the tree they are about.
    method LeftRelink(x: Node, ghost path: Path)
      requires nil !in nodes && x in nodes && x.right in nodes && x.right.left in nodes + {nil}
      requires x.parent == ParentOf(nil, path) && Hangs(Snap(), nil, path, x)
      requires var y, b, p := x.right, x.right.left, x.parent;
        x != y && y != p && (b != nil ==> b != x && b != y && b != p)
      modifies this`root, nodes
      ensures var m, y, b := old(Snap()), old(x.right), old(x.right.left);
        && x in m && y in m && nil in m && (b != nil ==> b in m) && (path.Step? ==> path.cell.n in m)
        && Snap() == Hooked(WithChild(WithParent(Unhooked(m, nil, Left, x, b), y, old(x.parent)), path, y), Left, x, y)
        && root == if path.Top? then y else old(root)
    {
      var y := x.right;
      SetKid(x, Right, y.left);
      if y.left != nil {
        SetParent(y.left, x);
      }
      Replace(x, y, path);
      SetKid(y, Left, x);
      SetParent(x, y);
    }

    method LeftRotate(x: Node, ghost path: Path, ghost t: Tree)
      requires At(path, t) && t.Bin? && t.cell.n == x && t.r.Bin?
      modifies this`root, this`rotations, nodes
      ensures At(path, Rotate(Left, t))
      ensures rotations == old(rotations) + 1
    {
      ZipRotation(Snap(), nil, root, path, Left, t);
      FocusLinks(Snap(), nil, root, path, t);
      RotateLinks(Snap(), nil, root, path, Left, t);
      LeftRelink(x, path);
      rotations := rotations + 1;
    }

    method RightRelink(y: Node, ghost path: Path)
      requires nil !in nodes && y in nodes && y.left in nodes && y.left.right in nodes + {nil}
      requires y.parent == ParentOf(nil, path) && Hangs(Snap(), nil, path, y)
      requires var x, b, p := y.left, y.left.right, y.parent;
        y != x && x != p && (b != nil ==> b != x && b != y && b != p)
      modifies this`root, nodes
      ensures var m, x, b := old(Snap()), old(y.left), old(y.left.right);
        && x in m && y in m && nil in m && (b != nil ==> b in m) && (path.Step? ==> path.cell.n in m)
        && Snap() == Hooked(WithChild(WithParent(Unhooked(m, nil, Right, y, b), x, old(y.parent)), path, x), Right, y, x)
        && root == if path.Top? then x else old(root)
    {
      var x := y.left;
      SetKid(y, Left, x.right);
      if x.right != nil {
        SetParent(x.right, y);
      }
      Replace(y, x, path);
      SetKid(x, Right, y);
      SetParent(y, x);
    }

    method RightRotate(y: Node, ghost path: Path, ghost t: Tree)
      requires At(path, t) && t.Bin? && t.cell.n == y && t.l.Bin?
      modifies this`root, this`rotations, nodes
      ensures At(path, Rotate(Right, t))
      ensures rotations == old(rotations) + 1
    {
      ZipRotation(Snap(), nil, root, path, Right, t);
      FocusLinks(Snap(), nil, root, path, t);
      RotateLinks(Snap(), nil, root, path, Right, t);
      RightRelink(y, path);
      rotations := rotations + 1;
    }

    lemma Links(path: Path, t: Tree)
      requires At(path, t)
      ensures path.Top? ==> root == RootOf(nil, t)
      ensures t.Bin? ==>
        var z := t.cell.n;
        && z in nodes && z.color == t.cell.c && z.parent == ParentOf(nil, path)
        && z.left == RootOf(nil, t.l) && z.right == RootOf(nil, t.r)
      ensures path.Step? ==>
        var p := path.cell.n;
        && p in nodes && p.color == path.cell.c && p.parent == ParentOf(nil, path.up)
        && (path.d.Left? ==> p.left == RootOf(nil, t) && p.right == RootOf(nil, path.sib))
        && (path.d.Right? ==> p.right == RootOf(nil, t) && p.left == RootOf(nil, path.sib))
        && (RootOf(nil, t) == RootOf(nil, path.sib) ==> t.Nil? && path.sib.Nil?)
      ensures nil.color == Black && nil !in nodes
    {
      FocusLinks(Snap(), nil, root, path, t);
      var m := Snap();
      assert t.Bin? ==> t.cell.n in m;
      assert path.Step? ==> path.cell.n in m;
    }

    // What the insert fixup reads before it picks a case: grandparent and uncle.
    lemma UncleLinks(path: Path, t: Tree)
      requires At(path, t) && InsertInv(path, t) && path.Step? && path.cell.c.Red?
      ensures path.up.Step?
      ensures
        var z, p, g, u := t.cell.n, path.cell.n, path.up.cell.n, path.up.sib;
        && z in nodes && p in nodes && g in nodes && z.parent == p && p.parent == g
        && (z == p.left <==> path.d.Left?) && (z == p.right <==> path.d.Right?)
        && (p == g.left <==> path.up.d.Left?) && (p == g.right <==> path.up.d.Right?)
        && (path.up.d.Left? ==> g.right == RootOf(nil, u) && g.right.color == ColorOf(u))
        && (path.up.d.Right? ==> g.left == RootOf(nil, u) && g.left.color == ColorOf(u))
    {
      RecoloredInv(path, t);
      Links(path, t);
      ZipUp(Snap(), nil, root, path, t);
      Links(path.up, Join(path.d, path.cell, t, path.sib));
      ZipSide(Snap(), nil, root, path.up, Join(path.d, path.cell, t, path.sib));
      Links(Step(Flip(path.up.d), path.up.cell, Join(path.d, path.cell, t, path.sib), path.up.up), path.up.sib);
    }

    method Rotate1(x: Node, d: Dir, ghost path: Path, ghost t: Tree)
      requires At(path, t) && t.Bin? && t.cell.n == x && Sub(t, Flip(d)).Bin?
      modifies this`root, this`rotations, nodes
      ensures At(path, Rotate(d, t))
      ensures rotations == old(rotations) + 1
    {
      if d.Left? { LeftRotate(x, path, t); } else { RightRotate(x, path, t); }
    }

    // Red uncle `y`: both it and the parent turn black, the grandparent red.
    method Recolor(z: Node, y: Node, ghost path: Path, ghost t: Tree)
      requires At(path, t) && t.Bin? && z == t.cell.n
      requires path.Step? && path.up.Step? && path.up.sib.Bin? && y == path.up.sib.cell.n
      modifies nodes`color
      ensures At(path.up.up, Recolored(path, t))
    {
      hide Zip;
      ghost var Step(d, p, s, Step(e, g, u, top)) := path;
      Links(path, t);
      ZipUp(Snap(), nil, root, path, t);
      Links(path.up, Join(d, p, t, s));
      SetColor(z.parent, Black, path.up, Join(d, p, t, s));
      ghost var p' := Join(d, Painted(p, Black), t, s);
      ZipSide(Snap(), nil, root, path.up, p');
      Links(Step(Flip(e), g, p', top), u);
      SetColor(y, Black, Step(Flip(e), g, p', top), u);
      ZipUp(Snap(), nil, root, Step(Flip(e), g, p', top), Blacken(u));
      SetColor(z.parent.parent, Red, top, Join(e, g, p', Blacken(u)));
    }

    // `z` is an inner grandchild: it trades places with its parent, the new focus.
    method Straighten(z: Node, d: Dir, ghost path: Path, ghost t: Tree) returns (z': Node)
      requires At(path, t) && t.Bin? && z == t.cell.n
      requires path.Step? && path.up.Step? && path.d == d && path.up.d == Flip(d)
      modifies this`root, this`rotations, nodes
      ensures At(TurnedPath(path, t), TurnedTree(path, t)) && z' == path.cell.n
      ensures rotations == old(rotations) + 1
    {
      Links(path, t);
      ZipUp(Snap(), nil, root, path, t);
      z' := z.parent;
      ghost var whole := Join(d, path.cell, t, path.sib);
      Rotate1(z', Flip(d), path.up, whole);
      assert Rotate(Flip(d), whole) == Join(Flip(d), t.cell, TurnedTree(path, t), Sub(t, d));
      ZipDown(Snap(), nil, root, path.up, Rotate(Flip(d), whole), Flip(d));
    }

    // Black uncle, `z` an outer grandchild: the parent rises over the grandparent.
    method RaiseParent(z: Node, d: Dir, ghost path: Path, ghost t: Tree)
      requires At(path, t) && t.Bin? && z == t.cell.n
      requires path.Step? && path.up.Step? && path.d == path.up.d == d
      modifies this`root, this`rotations, nodes
      ensures At(RaisedPath(path), t)
      ensures rotations == old(rotations) + 1
    {
      hide Zip;
      ghost var Step(_, p, s, Step(_, g, u, top)) := path;
      Links(path, t);
      ZipUp(Snap(), nil, root, path, t);
      Links(path.up, Join(d, p, t, s));
      SetColor(z.parent, Black, path.up, Join(d, p, t, s));
      ghost var p' := Join(d, Painted(p, Black), t, s);
      ZipUp(Snap(), nil, root, path.up, p');
      Links(top, Join(d, g, p', u));
      SetColor(z.parent.parent, Red, top, Join(d, g, p', u));
      Rotate1(z.parent.parent, Flip(d), top, Join(d, Painted(g, Red), p', u));
      ZipDown(Snap(), nil, root, top, Join(d, Painted(p, Black), t, Join(d, Painted(g, Red), s, u)), d);
    }

    function Side(x: Node, d: Dir): Node
      reads x
    {
      if d.Left? then x.left else x.right
    }

    // One turn of the insert loop; the parent is child `e` of the grandparent. The two
    // branches of the source are mirror images.
    method InsertTurn(z0: Node, e: Dir, ghost path0: Path, ghost t0: Tree)
      returns (z: Node, ghost path: Path, ghost t: Tree)
      requires At(path0, t0) && InsertInv(path0, t0) && z0 == t0.cell.n
      requires path0.Step? && path0.cell.c.Red? && path0.up.Step? && path0.up.d == e
      modifies this`root, this`rotations, nodes
      ensures At(path, t) && InsertInv(path, t) && z == t.cell.n && Len(path) < Len(path0)
      ensures InsertFix(path, t) == InsertFix(path0, t0)
      ensures rotations + InsertRotations(path, t) == old(rotations) + InsertRotations(path0, t0)
    {
      z, path, t := z0, path0, t0;
      UncleLinks(path, t);
      RecoloredInv(path, t);
      var y := Side(z.parent.parent, Flip(e));
      if y.color.Red? {
        Recolor(z, y, path, t);
        z := z.parent.parent;
        path, t := path.up.up, Recolored(path, t);
      } else {
        if z == Side(z.parent, Flip(e)) {
          TurnedInv(path, t);
          z := Straighten(z, Flip(e), path, t);
          path, t := TurnedPath(path, t), TurnedTree(path, t);
        }
        RaisedInv(path, t);
        RaiseParent(z, e, path, t);
        path := RaisedPath(path);
      }
    }

    method InsertFixup(z0: Node, ghost path0: Path, ghost t0: Tree)
      requires At(path0, t0) && InsertInv(path0, t0) && z0 == t0.cell.n
      modifies this`root, this`rotations, nodes
      ensures At(Top, InsertFix(path0, t0))
      ensures rotations == old(rotations) + InsertRotations(path0, t0)
    {
      var z := z0;
      ghost var path, t := path0, t0;
      while z.parent.color.Red?
        invariant At(path, t) && InsertInv(path, t) && z == t.cell.n
        invariant InsertFix(path, t) == InsertFix(path0, t0)
        invariant rotations + InsertRotations(path, t) == old(rotations) + InsertRotations(path0, t0)
        decreases Len(path)
      {
        Links(path, t);
        UncleLinks(path, t);
        if z.parent == z.parent.parent.left {
          z, path, t := InsertTurn(z, Left, path, t);
        } else {
          z, path, t := InsertTurn(z, Right, path, t);
        }
      }
      FinishInsert(path, t);
      SetColor(root, Black, Top, Plug(path, t));
    }

    // When the loop stops, only the root may still be red.
    lemma FinishInsert(path: Path, t: Tree)
      requires At(path, t) && InsertInv(path, t) && !t.cell.n.parent.color.Red?
      ensures At(Top, Plug(path, t)) && Plug(path, t).Bin? && root == Plug(path, t).cell.n && root in nodes
      ensures Blacken(Plug(path, t)) == InsertFix(path, t) && InsertRotations(path, t) == 0
    {
      Links(path, t);
      ZipTop(Snap(), nil, root, path, t);
      if path.Step? { PlugFits(path, t); NeverEmpty(path, t); }
      Links(Top, Plug(path, t));
    }

    // ---------- The public view ----------

    ghost predicate Valid()
      reads this, nil, nodes
    {
      && At(Top, tree) && nodes == Ids(tree)
      && IsRedBlack(tree) && Ordered(Inorder(tree))
    }

    ghost function Contents(): map<int, Value>
      reads this
    {
      MapOf(Inorder(tree))
    }

    // The focus sinks to the child on the side of `key`.
    lemma Descend(path: Path, t: Tree, key: int)
      requires Ordered(Inorder(tree)) && At(path, t) && Plug(path, t) == tree
      requires t.Bin? && Brackets(path, key) && key != t.cell.k
      ensures
        var d := if key < t.cell.k then Left else Right;
        var path' := Step(d, t.cell, Sub(t, Flip(d)), path);
        At(path', Sub(t, d)) && Plug(path', Sub(t, d)) == tree && Brackets(path', key)
    {
      BracketsDown(path, t, key);
      ZipDown(Snap(), nil, root, path, t, if key < t.cell.k then Left else Right);
    }

    lemma PresentAt(path: Path, t: Tree)
      requires Plug(path, t) == tree && t.Bin? && Ordered(Inorder(tree))
      ensures t.cell.k in Contents() && Contents()[t.cell.k] == t.cell.v
    {
      SplitAt(path, t);
      var a, e, b := Before(path) + Inorder(t.l), EntryOf(t.cell), Inorder(t.r) + After(path);
      OrderedAround(a, e, b);
      MapAround(a, e, b);
    }

    lemma AbsentAt(path: Path, key: int)
      requires Plug(path, Nil) == tree && Brackets(path, key)
      ensures key !in Contents()
    {
      PlugInorder(path, Nil);
      MapKeys(Inorder(tree), key);
    }

    method Search(key: int) returns (node: Node, ghost steps: nat)
      requires Valid()
      ensures node == nil <==> key !in Contents()
      ensures node != nil ==> node in nodes && node.key == key && node.value == Contents()[key]
      ensures Pow2(steps) <= (|Inorder(tree)| + 1) * (|Inorder(tree)| + 1)
    {
      hide Zip, MapOf;
      node := root;
      steps := 0;
      ghost var path, t := Top, tree;
      Links(path, t);
      while node != nil
        invariant At(path, t) && Plug(path, t) == tree && Brackets(path, key) && steps == Len(path)
        invariant node == RootOf(nil, t) && (t.Bin? ==> node in nodes)
        decreases t
      {
        Links(path, t);
        KeyAt(path, t);
        ghost var d := if key < t.cell.k then Left else Right;
        if key < node.key {
          node := node.left;
        } else if key > node.key {
          node := node.right;
        } else {
          PresentAt(path, t);
          PathLength(path, t);
          return;
        }
        steps := steps + 1;
        Descend(path, t, key);
        path, t := Step(d, t.cell, Sub(t, Flip(d)), path), Sub(t, d);
        Links(path, t);
      }
      AbsentAt(path, key);
      PathLength(path, t);
      node := nil;
    }

    lemma KeyAt(path: Path, t: Tree)
      requires At(path, t) && t.Bin?
      ensures t.cell.n in nodes && t.cell.n.key == t.cell.k && t.cell.n.value == t.cell.v
    {
      FocusLinks(Snap(), nil, root, path, t);
      var m := Snap();
      assert t.cell.n in m;
    }

    // Lines 147-159: walk down to an empty place for `key`, or to the node that holds it.
    method FindPlace(key: int) returns (x: Node, y: Node, ghost path: Path, ghost t: Tree)
      requires Valid()
      ensures At(path, t) && Plug(path, t) == tree && Brackets(path, key)
      ensures x == RootOf(nil, t)
      ensures x == nil ==> t.Nil? && y == ParentOf(nil, path) && key !in Contents()
      ensures x != nil ==> key in Contents()
    {
      y := nil;
      x := root;
      path, t := Top, tree;
      Links(path, t);
      while x != nil
        invariant At(path, t) && Plug(path, t) == tree && Brackets(path, key)
        invariant x == RootOf(nil, t) && y == ParentOf(nil, path) && (t.Bin? ==> x in nodes)
        decreases t
      {
        Links(path, t);
        KeyAt(path, t);
        y := x;
        if key < x.key {
          x := x.left;
        } else if key > x.key {
          x := x.right;
        } else {
          PresentAt(path, t);
          return;
        }
        Descend(path, t, key);
        ghost var d := if key < t.cell.k then Left else Right;
        path, t := Step(d, t.cell, Sub(t, Flip(d)), path), Sub(t, d);
        Links(path, t);
      }
      AbsentAt(path, key);
    }

    // Lines 161-172: `z` becomes a red childless node below `y`, on the side its key belongs to.
    method LinkBelow(z: Node, y: Node, ghost path: Path)
      requires z in nodes && nil !in nodes && y == ParentOf(nil, path)
      requires path.Step? ==> y in nodes && y != z && (path.d.Left? <==> z.key < y.key)
      modifies this`root, nodes
      ensures z in old(Snap()) && (path.Step? ==> path.cell.n in old(Snap()))
      ensures Snap() == Leafed(WithChild(WithParent(old(Snap()), z, y), path, z), nil, z)
      ensures root == if path.Top? then z else old(root)
    {
      SetParent(z, y);
      if y == nil {
        root := z;
      } else if z.key < y.key {
        SetKid(y, Left, z);
      } else {
        SetKid(y, Right, z);
      }
      SetKid(z, Left, nil);
      SetKid(z, Right, nil);
      Paint(z, Red);
    }

    method Attach(z: Node, y: Node, ghost path: Path, ghost r: Rec)
      requires At(path, Nil) && Brackets(path, z.key) && y == ParentOf(nil, path)
      requires z != nil && z !in nodes
      requires r == Rec(z.color, z.left, z.right, z.parent, z.key, z.value)
      modifies this`root, this`nodes, nodes, z
      ensures At(path, Bin(Cell(z, Red, r.k, r.v), Nil, Nil))
      ensures nodes == old(nodes) + {z}
    {
      ghost var m := Snap();
      ZipAttach(m, nil, root, path, Cell(z, Red, r.k, r.v), r);
      if path.Step? { ParentKey(path, z.key); }
      nodes := nodes + {z};
      assert Snap() == m[z := r];
      LinkBelow(z, y, path);
    }

    // The key of the parent tells on which side of it the hole is.
    lemma ParentKey(path: Path, key: int)
      requires At(path, Nil) && path.Step? && Brackets(path, key)
      ensures path.cell.n in nodes && nil !in nodes && path.cell.n.key == path.cell.k
      ensures path.d.Left? <==> key < path.cell.k
    {
      var m := Snap();
      assert path.cell.n in m && m[path.cell.n].k == path.cell.k;
      assert path.d.Left? ==> EntryOf(path.cell) in After(path);
      assert path.d.Right? ==> EntryOf(path.cell) in Before(path);
    }

    method InsertAt(z: Node, y: Node, ghost path: Path)
      requires At(path, Nil) && Brackets(path, z.key) && y == ParentOf(nil, path)
      requires z != nil && z !in nodes
      requires InsertInv(path, Bin(Cell(z, Red, z.key, z.value), Nil, Nil))
      modifies this`root, this`rotations, this`nodes, nodes, z
      ensures var t := Bin(Cell(z, Red, old(z.key), old(z.value)), Nil, Nil);
        At(Top, InsertFix(path, t)) && rotations == old(rotations) + InsertRotations(path, t)
      ensures nodes == old(nodes) + {z}
    {
      ghost var r := Rec(z.color, z.left, z.right, z.parent, z.key, z.value);
      Attach(z, y, path, r);
      InsertFixup(z, path, Bin(Cell(z, Red, r.k, r.v), Nil, Nil));
    }

    // Lines 161-174, for a key that is not in the tree.
    method InsertNew(z: Node, y: Node, ghost path: Path)
      requires Valid() && Plug(path, Nil) == tree
      requires At(path, Nil) && Brackets(path, z.key) && y == ParentOf(nil, path)
      requires z != nil && z !in nodes
      modifies this, nodes, z
      ensures Valid() && rotations <= old(rotations) + 2
      ensures Contents() == old(Contents())[old(z.key) := old(z.value)] && nodes == old(nodes) + {z}
    {
      hide Zip, InsertInv, InsertFix, InsertRotations, Brackets, IsRedBlack, Ordered, MapOf;
      ghost var cell := Cell(z, Red, z.key, z.value);
      GrownTree(path, cell);
      GrownIds(path, cell);
      InsertAt(z, y, path);
      tree := InsertFix(path, Bin(cell, Nil, Nil));
    }

    method Insert(z: Node)
      requires Valid() && z != nil && z !in nodes
      modifies this, nodes, z
      ensures Valid() && rotations <= old(rotations) + 2
      ensures old(z.key in Contents()) ==>
        tree == old(tree) && nodes == old(nodes) && root == old(root) && unchanged(nodes) && unchanged(z)
      ensures old(z.key !in Contents()) ==>
        Contents() == old(Contents())[old(z.key) := old(z.value)] && nodes == old(nodes) + {z}
    {
      var x, y;
      ghost var path, t;
      x, y, path, t := FindPlace(z.key);
      if x != nil {
        return;
      }
      InsertNew(z, y, path);
    }

    // ---------- Deletion ----------

    // The delete fixup stands at `x`, which may be nil: its parent link is right all the same.
    ghost predicate Short(x: Node, path: Path, t: Tree)
      reads this`root, this`nodes, nil, nodes
    {
      && At(path, t) && DeleteInv(path, t) && x == RootOf(nil, t)
      && (t.Nil? ==> nil.parent == ParentOf(nil, path))
    }

    // The sibling is a real node, and its children may be read.
    lemma SiblingLinks(x: Node, path: Path, t: Tree)
      requires At(path, t) && path.Step? && path.sib.Bin? && x == RootOf(nil, t)
      requires t.Nil? ==> nil.parent == ParentOf(nil, path)
      ensures
        var p, w := path.cell.n, path.sib.cell.n;
        && p in nodes && w in nodes && x.parent == p && x.color == ColorOf(t)
        && (x == p.left <==> path.d.Left?)
        && (path.d.Left? ==> p.right == w) && (path.d.Right? ==> p.left == w)
        && w.color == path.sib.cell.c
        && w.left == RootOf(nil, path.sib.l) && w.left.color == ColorOf(path.sib.l)
        && w.right == RootOf(nil, path.sib.r) && w.right.color == ColorOf(path.sib.r)
    {
      Links(path, t);
      ZipSide(Snap(), nil, root, path, t);
      var across := Step(Flip(path.d), path.cell, t, path.up);
      Links(across, path.sib);
      ZipDown(Snap(), nil, root, across, path.sib, Left);
      Links(Step(Left, path.sib.cell, path.sib.r, across), path.sib.l);
      ZipDown(Snap(), nil, root, across, path.sib, Right);
      Links(Step(Right, path.sib.cell, path.sib.l, across), path.sib.r);
    }

    lemma ParentLink(path: Path, t: Tree)
      requires At(path, t)
      ensures t.Bin? ==> t.cell.n in nodes && t.cell.n.parent == ParentOf(nil, path)
    {
      Links(path, t);
    }

    // Red sibling `w`: it turns black and rises over the parent, which turns red.
    method SinkSibling(x: Node, w: Node, d: Dir, ghost path: Path, ghost t: Tree)
      requires At(path, t) && path.Step? && path.d == d && path.sib.Bin? && w == path.sib.cell.n
      requires x.parent == path.cell.n
      modifies this`root, this`rotations, nodes
      ensures At(Sunk(path), t)
      ensures rotations == old(rotations) + 1
    {
      ghost var Step(_, p, s, up) := path;
      ghost var across := Step(Flip(d), p, t, up);
      Links(path, t);
      ZipSide(Snap(), nil, root, path, t);
      Links(across, s);
      SetColor(w, Black, across, s);
      ghost var s' := s.(cell := Painted(s.cell, Black));
      ZipUp(Snap(), nil, root, across, s');
      SetColor(x.parent, Red, up, Join(Flip(d), p, s', t));
      ghost var p' := Painted(p, Red);
      Rotate1(x.parent, d, up, Join(Flip(d), p', s', t));
      ghost var low := Join(Flip(d), p', Sub(s, d), t);
      ZipDown(Snap(), nil, root, up, Join(Flip(d), s'.cell, Sub(s, Flip(d)), low), d);
      ZipDown(Snap(), nil, root, Step(d, s'.cell, Sub(s, Flip(d)), up), low, d);
    }

    // Black nephews: the sibling turns red and the shortage moves up.
    method PaintSibling(w: Node, ghost path: Path, ghost t: Tree)
      requires At(path, t) && path.Step? && path.sib.Bin? && w == path.sib.cell.n
      modifies nodes`color
      ensures At(path.up, Lifted(path, t))
    {
      ghost var across := Step(Flip(path.d), path.cell, t, path.up);
      ZipSide(Snap(), nil, root, path, t);
      Links(across, path.sib);
      SetColor(w, Red, across, path.sib);
      ZipUp(Snap(), nil, root, across, path.sib.(cell := Painted(path.sib.cell, Red)));
    }

    // Black far nephew, red near nephew: the near one becomes the sibling.
    method RaiseNear(w: Node, d: Dir, ghost path: Path, ghost t: Tree)
      requires At(path, t) && path.Step? && path.d == d && path.sib.Bin? && w == path.sib.cell.n
      requires Sub(path.sib, d).Bin?
      modifies this`root, this`rotations, nodes
      ensures At(NearPath(path), t)
      ensures rotations == old(rotations) + 1
    {
      ghost var Step(_, p, s, up) := path;
      ghost var across := Step(Flip(d), p, t, up);
      ghost var near, far := Sub(s, d), Sub(s, Flip(d));
      ZipSide(Snap(), nil, root, path, t);
      Links(across, s);
      ZipDown(Snap(), nil, root, across, s, d);
      Links(Step(d, s.cell, far, across), near);
      SetColor(if d.Left? then w.left else w.right, Black, Step(d, s.cell, far, across), near);
      ghost var near' := near.(cell := Painted(near.cell, Black));
      ZipUp(Snap(), nil, root, Step(d, s.cell, far, across), near');
      SetColor(w, Red, across, Join(d, s.cell, near', far));
      Rotate1(w, Flip(d), across, Join(d, Painted(s.cell, Red), near', far));
      ZipSide(Snap(), nil, root, across, NearRaised(d, s));
    }

    // Red far nephew: the sibling takes the parent's place and colour.
    method RaiseFar(x: Node, w: Node, d: Dir, ghost path: Path, ghost t: Tree)
      requires At(path, t) && path.Step? && path.d == d && path.sib.Bin? && w == path.sib.cell.n
      requires Sub(path.sib, Flip(d)).Bin? && x.parent == path.cell.n
      modifies this`root, this`rotations, nodes
      ensures At(path.up, FarRaised(path, t, path.sib))
      ensures rotations == old(rotations) + 1
    {
      hide Zip;
      ghost var Step(_, p, s, up) := path;
      ghost var across := Step(Flip(d), p, t, up);
      ghost var near, far := Sub(s, d), Sub(s, Flip(d));
      Links(path, t);
      ZipSide(Snap(), nil, root, path, t);
      Links(across, s);
      SetColor(w, x.parent.color, across, s);
      ghost var w' := Painted(s.cell, p.c);
      ghost var s' := Join(Flip(d), w', far, near);
      ZipUp(Snap(), nil, root, across, s');
      SetColor(x.parent, Black, up, Join(Flip(d), p, s', t));
      ghost var p' := Painted(p, Black);
      FarDown(d, up, p', w', near, far, t);
      ghost var path' := Step(Flip(d), w', near, Step(Flip(d), p', t, up));
      SetColor(if d.Left? then w.right else w.left, Black, path', far);
      ZipUp(Snap(), nil, root, path', Blacken(far));
      ZipUp(Snap(), nil, root, path'.up, Join(Flip(d), w', Blacken(far), near));
      Rotate1(x.parent, d, up, Join(Flip(d), p', Join(Flip(d), w', Blacken(far), near), t));
    }

    lemma FarDown(d: Dir, up: Path, p: Cell, w: Cell, near: Tree, far: Tree, t: Tree)
      requires At(up, Join(Flip(d), p, Join(Flip(d), w, far, near), t)) && far.Bin?
      ensures At(Step(Flip(d), w, near, Step(Flip(d), p, t, up)), far)
      ensures w.n in nodes && far.cell.n in nodes
      ensures (if d.Left? then w.n.right else w.n.left) == far.cell.n
    {
      var s := Join(Flip(d), w, far, near);
      ZipDown(Snap(), nil, root, up, Join(Flip(d), p, s, t), Flip(d));
      ZipDown(Snap(), nil, root, Step(Flip(d), p, t, up), s, Flip(d));
      Links(Step(Flip(d), w, near, Step(Flip(d), p, t, up)), far);
    }

    lemma FinishRaise(path: Path, r: Tree)
      requires At(path, r) && r.Bin?
      ensures At(Top, Plug(path, r)) && Plug(path, r).Bin? && root == RootOf(nil, Plug(path, r))
    {
      ZipTop(Snap(), nil, root, path, r);
      NeverEmpty(path, r);
    }

    // Lines 196-208: one of the nephews is red, and the loop is over.
    method Rise(x0: Node, w0: Node, d: Dir, ghost path0: Path, ghost t: Tree)
      returns (x: Node, ghost whole: Tree)
      requires Short(x0, path0, t) && path0.Step? && path0.d == d
      requires path0.sib.Bin? && !IsRed(path0.sib) && w0 == path0.sib.cell.n
      requires IsRed(path0.sib.l) || IsRed(path0.sib.r)
      modifies this`root, this`rotations, nodes
      ensures whole == Plug(path0.up, FarRaised(path0, t, Sibling(path0)))
      ensures At(Top, whole) && x == RootOf(nil, whole)
      ensures rotations == old(rotations) + if IsRed(Sub(path0.sib, Flip(d))) then 1 else 2
    {
      var w := w0;
      ghost var path := path0;
      SiblingLinks(x0, path, t);
      if Side(w, Flip(d)).color.Black? {
        RaiseNear(w, d, path, t);
        path := NearPath(path);
        SiblingLinks(x0, path, t);
        w := Side(x0.parent, Flip(d));
      }
      RaiseFar(x0, w, d, path, t);
      FinishRaise(path.up, FarRaised(path, t, path.sib));
      x := root;
      whole := Plug(path.up, FarRaised(path, t, path.sib));
    }

    // Lines 191-209: the sibling `w` is black.
    method Settle(x0: Node, w0: Node, d: Dir, ghost path0: Path, ghost t0: Tree)
      returns (x: Node, ghost path: Path, ghost t: Tree)
      requires Short(x0, path0, t0) && path0.Step? && path0.d == d && !IsRed(t0)
      requires path0.sib.Bin? && !IsRed(path0.sib) && w0 == path0.sib.cell.n
      modifies this`root, this`rotations, nodes
      ensures Short(x, path, t) && Measure(path, t) < Measure(path0, t0)
      ensures DeleteFix(path, t) == DeleteFix(path0, t0)
      ensures rotations + DeleteRotations(path, t) == old(rotations) + DeleteRotations(path0, t0)
    {
      hide Zip;
      x, path, t := x0, path0, t0;
      var w := w0;
      SiblingLinks(x, path, t);
      if w.left.color.Black? && w.right.color.Black? {
        LiftedInv(path, t);
        PaintSibling(w, path, t);
        x := x.parent;
        path, t := path.up, Lifted(path, t);
        ParentLink(path, t);
      } else {
        RaisedDone(path, t);
        x, t := Rise(x, w, d, path, t);
        path := Top;
      }
    }

    // One turn of the delete loop; `x` is child `d` of its parent.
    method DeleteTurn(x0: Node, d: Dir, ghost path0: Path, ghost t0: Tree)
      returns (x: Node, ghost path: Path, ghost t: Tree)
      requires Short(x0, path0, t0) && path0.Step? && path0.d == d && !IsRed(t0)
      modifies this`root, this`rotations, nodes
      ensures Short(x, path, t) && Measure(path, t) < Measure(path0, t0)
      ensures DeleteFix(path, t) == DeleteFix(path0, t0)
      ensures rotations + DeleteRotations(path, t) == old(rotations) + DeleteRotations(path0, t0)
    {
      x, path, t := x0, path0, t0;
      SunkInv(path, t);
      SiblingLinks(x, path, t);
      var w := Side(x.parent, Flip(d));
      if w.color.Red? {
        SinkSibling(x, w, d, path, t);
        path := Sunk(path);
        SiblingLinks(x, path, t);
        w := Side(x.parent, Flip(d));
      }
      x, path, t := Settle(x, w, d, path, t);
    }

    // The loop test `x != root` asks whether anything is above the focus.
    lemma RootAbove(x: Node, path: Path, t: Tree)
      requires Short(x, path, t)
      ensures x == root <==> path.Top?
      ensures x.color == ColorOf(t) && (t.Bin? ==> x in nodes)
      ensures path.Step? ==> path.cell.n in nodes && x.parent == path.cell.n
      ensures path.Step? ==> path.cell.n.left == (if path.d.Left? then x else RootOf(nil, path.sib))
    {
      Links(path, t);
      if path.Step? {
        PathInMemory(Snap(), nil, root, path, x);
        assert t.Bin? ==> x in Ids(t);
      }
    }

    method DeleteFixup(x0: Node, ghost path0: Path, ghost t0: Tree)
      requires Short(x0, path0, t0)
      modifies this`root, this`rotations, nodes, nil`color
      ensures At(Top, DeleteFix(path0, t0))
      ensures rotations == old(rotations) + DeleteRotations(path0, t0)
    {
      hide Zip, DeleteInv, DeleteFix, DeleteRotations, Measure;
      var x := x0;
      ghost var path, t := path0, t0;
      RootAbove(x, path, t);
      while x != root && x.color.Black?
        invariant Short(x, path, t)
        invariant x == root <==> path.Top?
        invariant x.color == ColorOf(t)
        invariant DeleteFix(path, t) == DeleteFix(path0, t0)
        invariant rotations + DeleteRotations(path, t) == old(rotations) + DeleteRotations(path0, t0)
        decreases Measure(path, t)
      {
        RootAbove(x, path, t);
        SunkInv(path, t);
        SiblingLinks(x, path, t);
        if x == x.parent.left {
          x, path, t := DeleteTurn(x, Left, path, t);
        } else {
          x, path, t := DeleteTurn(x, Right, path, t);
        }
        RootAbove(x, path, t);
      }
      BlackenFocus(x, path, t);
    }

    // The final assignment `x->color = BLACK`, which may fall on nil.
    method BlackenFocus(x: Node, ghost path: Path, ghost t: Tree)
      requires Short(x, path, t) && (path.Top? || IsRed(t))
      modifies nodes`color, nil`color
      ensures At(Top, DeleteFix(path, t)) && DeleteRotations(path, t) == 0
    {
      Links(path, t);
      if x == nil {
        ghost var m := Snap();
        x.color := Black;
        assert Snap() == m;
      } else {
        SetColor(x, Black, path, t);
      }
      ZipTop(Snap(), nil, root, path, Blacken(t));
    }

    lemma Kids(path: Path, t: Tree)
      requires At(path, t) && t.Bin?
      ensures var z := t.cell.n;
        && z in nodes && z.left == RootOf(nil, t.l) && z.right == RootOf(nil, t.r)
        && (z.left == nil <==> t.l.Nil?) && (z.right == nil <==> t.r.Nil?)
    {
      Links(path, t);
      KidLinks(Snap(), nil, ParentOf(nil, path), t);
    }

    method Minimum(x0: Node, ghost path0: Path, ghost t0: Tree)
      returns (x: Node, ghost path: Path, ghost t: Tree)
      requires At(path0, t0) && t0.Bin? && x0 == t0.cell.n
      ensures At(path, t) && Plug(path, t) == Plug(path0, t0) && Leftward(path, path0)
      ensures t.Bin? && x == t.cell.n && t.l.Nil? && EntryOf(t.cell) == Inorder(t0)[0]
    {
      x, path, t := x0, path0, t0;
      Kids(path, t);
      while x.left != nil
        invariant At(path, t) && Plug(path, t) == Plug(path0, t0) && Leftward(path, path0)
        invariant t.Bin? && x == t.cell.n && Inorder(t)[0] == Inorder(t0)[0]
        decreases t
      {
        Kids(path, t);
        ZipDown(Snap(), nil, root, path, t, Left);
        x := x.left;
        path, t := Step(Left, t.cell, t.r, path), t.l;
        Kids(path, t);
      }
      Kids(path, t);
    }

    // The next node in search order, by descent or by climbing.
    method Successor(x0: Node, ghost path0: Path, ghost t0: Tree)
      returns (y: Node, ghost path: Path, ghost t: Tree)
      requires At(path0, t0) && t0.Bin? && x0 == t0.cell.n
      ensures var later := Inorder(t0.r) + After(path0);
        y == if later == [] then nil else later[0].n
      ensures t0.r.Bin? ==>
        && At(path, t) && Plug(path, t) == Plug(path0, t0)
        && Leftward(path, Step(Right, t0.cell, t0.l, path0))
        && t.Bin? && y == t.cell.n && t.l.Nil?
    {
      var x := x0;
      path, t := path0, t0;
      Links(path, t);
      Kids(path, t);
      y := x.parent;
      if x.right != nil {
        ZipDown(Snap(), nil, root, path, t, Right);
        y, path, t := Minimum(x.right, Step(Right, t.cell, t.l, path), t.r);
        return;
      }
      while y != nil && x == y.right
        invariant At(path, t) && t.Bin? && x == t.cell.n && y == ParentOf(nil, path)
        invariant After(path) == After(path0)
        decreases path
      {
        Links(path, t);
        ZipUp(Snap(), nil, root, path, t);
        x := y;
        y := y.parent;
        path, t := path.up, Join(path.d, path.cell, t, path.sib);
      }
      Links(path, t);
    }

    // In a valid tree that is the least larger key, or nil for the largest.
    lemma SuccessorKey(path: Path, t: Tree, y: Node)
      requires Valid() && Plug(path, t) == tree && t.Bin?
      requires var later := Inorder(t.r) + After(path); y == if later == [] then nil else later[0].n
      ensures forall k :: k in Contents() && k > t.cell.k ==> y != nil && k >= y.key
      ensures y != nil ==> y in nodes && y.key > t.cell.k && y.key in Contents()
    {
      SplitAt(path, t);
      var a, later := Before(path) + Inorder(t.l), Inorder(t.r) + After(path);
      LaterKeys(a, EntryOf(t.cell), later);
      if later != [] {
        EntryKey(later[0]);
      }
    }

    lemma EntryKey(e: Entry)
      requires At(Top, tree) && e in Inorder(tree)
      ensures e.n in nodes && e.n.key == e.k && e.n.value == e.v
    {
      var path, t := FocusEntry(Top, tree, e);
      ZipAt(Snap(), nil, root, path, t);
      KeyAt(path, t);
    }

    // Lines 264-276: `y` is unlinked; when it is not `z`, its key and value move to `z`.
    method Unlink(y: Node, z: Node, x: Node, ghost path: Path, ghost t: Tree, ghost tx: Tree, ghost base: Path)
      requires At(path, t) && Removal(path, t, tx, base) && y == t.cell.n && x == RootOf(nil, tx)
      requires y != z <==> base.Step?
      requires base.Step? ==> base.cell.n == z
      modifies this`root, nodes, nil
      ensures At(PathAfter(path, t, base), tx) && x.parent == ParentOf(nil, PathAfter(path, t, base))
      ensures y.color == t.cell.c && y in nodes
      ensures y != z ==> z.key == t.cell.k && z.value == t.cell.v
    {
      ZipSplice(Snap(), nil, root, path, t, tx);
      FocusLinks(Snap(), nil, root, path, t);
      Links(path, t);
      ghost var m := Snap();
      assert y in m && x in m;
      Replace(y, x, path);
      if y != z {
        ZipRebase(Snap(), nil, root, path, tx, base, y.key, y.value);
        CopyEntry(z, y);
      }
    }

    method CopyEntry(z: Node, y: Node)
      requires z in nodes
      modifies z`key, z`value
      ensures z in old(Snap())
      ensures Snap() == old(Snap())[z := old(Snap())[z].(k := y.key, v := y.value)]
      ensures z.key == old(y.key) && z.value == old(y.value)
    {
      z.key := y.key;
      z.value := y.value;
    }

    // Lines 264-280.
    method Remove(y: Node, z: Node, x: Node, ghost path: Path, ghost t: Tree, ghost tx: Tree, ghost base: Path)
      requires At(path, t) && Removal(path, t, tx, base) && y == t.cell.n && x == RootOf(nil, tx)
      requires y != z <==> base.Step?
      requires base.Step? ==> base.cell.n == z
      requires t.cell.c.Black? ==> DeleteInv(PathAfter(path, t, base), tx)
      modifies this`root, this`rotations, nodes, nil
      ensures At(Top, Pruned(PathAfter(path, t, base), tx, t.cell.c))
      ensures rotations == old(rotations) + PrunedRotations(PathAfter(path, t, base), tx, t.cell.c)
    {
      Unlink(y, z, x, path, t, tx, base);
      ghost var path' := PathAfter(path, t, base);
      if y.color.Black? {
        DeleteFixup(x, path', tx);
      } else {
        ZipTop(Snap(), nil, root, path', tx);
      }
    }

    // The same, with the ghost state brought up to date.
    method Drop(y: Node, z: Node, x: Node, ghost path: Path, ghost t: Tree, ghost tx: Tree, ghost base: Path)
      requires At(path, t) && Plug(path, t) == tree && nodes == Ids(tree)
      requires Removal(path, t, tx, base) && y == t.cell.n && x == RootOf(nil, tx)
      requires y != z <==> base.Step?
      requires base.Step? ==> base.cell.n == z
      requires t.cell.c.Black? ==> DeleteInv(PathAfter(path, t, base), tx)
      modifies this, nodes, nil
      ensures At(Top, tree) && tree == Pruned(PathAfter(path, t, base), tx, t.cell.c)
      ensures y in old(nodes) && nodes == Ids(tree) == old(nodes) - {y}
      ensures rotations == old(rotations) + PrunedRotations(PathAfter(path, t, base), tx, t.cell.c)
    {
      RemovalIds(Snap(), nil, root, path, t, tx, base);
      Remove(y, z, x, path, t, tx, base);
      Disown(y, Pruned(PathAfter(path, t, base), tx, t.cell.c));
    }

    ghost method Disown(y: Node, whole: Tree)
      requires At(Top, whole) && Ids(whole) == nodes - {y} && y in nodes
      modifies this`nodes, this`tree
      ensures At(Top, tree) && tree == whole && nodes == old(nodes) - {y}
    {
      var m := Snap();
      nodes := nodes - {y};
      tree := whole;
      ZipForget(m, Snap(), nil, root, whole);
    }

    // What distinguishes the successor from the node it replaces.
    lemma BelowBase(path: Path, t: Tree, base: Path)
      requires At(path, t) && t.Bin? && Leftward(path, base) && base.Step?
      ensures t.cell.n != base.cell.n
    {
      RebaseMemory(Snap(), nil, root, path, t.cell.n, base, 0, 0);
    }

    // `y` holds the least key greater than that of `z`.
    ghost predicate HoldsNext(z: Node, y: Node)
      reads this, z, y
    {
      y.key > z.key && forall k :: k in Contents() && k > z.key ==> k >= y.key
    }

    // Lines 249-256: the node to unlink is `z` or, when `z` has two children, its successor.
    method Victim(z: Node) returns (y: Node, ghost path: Path, ghost t: Tree, ghost base: Path)
      requires Valid() && z in nodes
      ensures At(path, t) && Plug(path, t) == tree && t.Bin? && y == t.cell.n
      ensures base.Step? ==> base.cell.n == z && base.d.Right? && Leftward(path, base) && t.l.Nil?
      ensures base.Top? ==> t.l.Nil? || t.r.Nil?
      ensures y != z <==> base.Step?
      ensures y == z <==> z.left == nil || z.right == nil
      ensures RemovedKey(t, base) == z.key
      ensures y != z ==> y in nodes && HoldsNext(z, y)
    {
      path, t := FocusNode(tree, z);
      base := Top;
      ZipAt(Snap(), nil, root, path, t);
      Kids(path, t);
      KeyAt(path, t);
      if z.left == nil || z.right == nil {
        y := z;
      } else {
        base := Step(Right, t.cell, t.l, path);
        ghost var path0, t0 := path, t;
        y, path, t := Successor(z, path, t);
        BelowBase(path, t, base);
        SuccessorKey(path0, t0, y);
      }
    }

    method Delete(z: Node) returns (y: Node)
      requires Valid() && z in nodes
      modifies this, nodes, nil
      ensures Valid() && rotations <= old(rotations) + 3
      ensures Contents() == old(Contents()) - {old(z.key)}
      ensures y in old(nodes) && nodes == old(nodes) - {y}
      ensures y == z <==> old(z.left) == nil || old(z.right) == nil
      ensures y != z ==> old(HoldsNext(z, y))
    {
      hide Zip, MapOf, Ordered, IsRedBlack, DeleteInv, Pruned, Inorder, Leftward, HoldsNext;
      ghost var path, t, base;
      y, path, t, base := Victim(z);
      Kids(path, t);
      var x := nil;
      if y.left != nil {
        x := y.left;
      } else if y.right != nil {
        x := y.right;
      }
      ghost var tx := if t.l.Bin? then t.l else t.r;
      PrunedTree(path, t, tx, base);
      Drop(y, z, x, path, t, tx, base);
    }

    method Serve(op: Op)
      requires Valid()
      requires op.Put? ==> op.node !in nodes && op.node != nil && op.node.key == op.k && op.node.value == op.v
      modifies this, nodes, nil, if op.Put? then {op.node} else {}
      ensures Valid()
      ensures Contents() == Applied(old(Contents()), op)
      ensures nodes <= old(nodes) + if op.Put? then {op.node} else {}
    {
      match op
      case Put(z, _, _) =>
        Insert(z);
      case Drop(k) =>
        ghost var steps;
        var node, gone;
        node, steps := Search(k);
        if node != nil {
          gone := Delete(node);
        }
    }

    // The requests that are still to come hold nodes of their own.
    ghost predicate Pending(script: seq<Op>, i: int)
      reads this`nodes, Nodes(script)
      requires 0 <= i <= |script|
    {
      forall j :: i <= j < |script| && script[j].Put? ==>
        var z := script[j].node;
        z in Nodes(script) && z !in nodes && z != nil && z.key == script[j].k && z.value == script[j].v
    }

    // Any history of insertions and removals, the way the driver program runs them.
    method Run(script: seq<Op>)
      requires Valid() && Pending(script, 0)
      requires forall i, j :: 0 <= i < j < |script| && script[i].Put? && script[j].Put? ==> script[i].node != script[j].node
      modifies this, nodes, nil, Nodes(script)
      ensures Valid()
      ensures Contents() == Expected(old(Contents()), script)
    {
      for i := 0 to |script|
        invariant Valid() && Pending(script, i)
        invariant nodes <= old(nodes) + Nodes(script)
        invariant Contents() == Expected(old(Contents()), script[..i])
      {
        assert script[..i + 1][..i] == script[..i];
        Serve(script[i]);
      }
      assert script[..|script|] == script;
    }
  }
}
