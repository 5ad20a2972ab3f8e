// What it means for linked nodes in memory to be a red-black tree, and how single
// assignments change the tree they represent.

module RbMemory {
  import opened RbModel

  // The fields of one node, and a snapshot of the fields of many.
  datatype Rec = Rec(c: Color, left: Node, right: Node, parent: Node, k: int, v: Value)

  type Mem = map<Node, Rec>

  function Kid(r: Rec, d: Dir): Node {
    if d.Left? then r.left else r.right
  }

  function WithKid(r: Rec, d: Dir, x: Node): Rec {
    if d.Left? then r.(left := x) else r.(right := x)
  }

  function RootOf(nil: Node, t: Tree): Node {
    if t.Bin? then t.cell.n else nil
  }

  function ParentOf(nil: Node, path: Path): Node {
    if path.Step? then path.cell.n else nil
  }

  function Ids(t: Tree): set<Node> {
    match t
    case Nil => {}
    case Bin(cell, l, r) => Ids(l) + {cell.n} + Ids(r)
  }

  function PathIds(path: Path): set<Node> {
    match path
    case Top => {}
    case Step(_, cell, sib, up) => Ids(sib) + {cell.n} + PathIds(up)
  }

  function RecOf(nil: Node, parent: Node, cell: Cell, l: Node, r: Node): Rec {
    Rec(cell.c, l, r, parent, cell.k, cell.v)
  }

  // The nodes of `t` are distinct, hold exactly what `t` says, and link to each other;
  // the topmost one has parent `p`.
  ghost predicate Rep(m: Mem, nil: Node, p: Node, t: Tree) {
    t.Bin? ==>
      && t.cell.n in m && t.cell.n != nil
      && m[t.cell.n] == RecOf(nil, p, t.cell, RootOf(nil, t.l), RootOf(nil, t.r))
      && t.cell.n !in Ids(t.l) && t.cell.n !in Ids(t.r) && Ids(t.l) !! Ids(t.r)
      && Rep(m, nil, t.cell.n, t.l) && Rep(m, nil, t.cell.n, t.r)
  }

  // The same for everything outside the hole of `path`, when node `x` hangs in the hole.
  ghost predicate RepPath(m: Mem, nil: Node, root: Node, path: Path, x: Node) {
    match path
    case Top => root == x
    case Step(d, cell, sib, up) =>
      && cell.n in m && cell.n != nil
      && m[cell.n] == (if d.Left? then RecOf(nil, ParentOf(nil, up), cell, x, RootOf(nil, sib))
                       else RecOf(nil, ParentOf(nil, up), cell, RootOf(nil, sib), x))
      && cell.n !in Ids(sib) && cell.n !in PathIds(up) && Ids(sib) !! PathIds(up)
      && Rep(m, nil, cell.n, sib) && RepPath(m, nil, root, up, cell.n)
  }

  // The memory holds tree Plug(path, t), seen from the root of `t`.
  ghost predicate Zip(m: Mem, nil: Node, root: Node, path: Path, t: Tree) {
    && nil in m && m[nil].c.Black?
    && Ids(t) !! PathIds(path)
    && Rep(m, nil, ParentOf(nil, path), t)
    && RepPath(m, nil, root, path, RootOf(nil, t))
  }

  // ---------- Moving the focus ----------

  lemma ZipUp(m: Mem, nil: Node, root: Node, path: Path, t: Tree)
    requires Zip(m, nil, root, path, t) && path.Step?
    ensures Zip(m, nil, root, path.up, Join(path.d, path.cell, t, path.sib))
  {
    assert Rep(m, nil, path.cell.n, t);
  }

  lemma ZipDown(m: Mem, nil: Node, root: Node, path: Path, t: Tree, d: Dir)
    requires Zip(m, nil, root, path, t) && t.Bin?
    ensures Zip(m, nil, root, Step(d, t.cell, Sub(t, Flip(d)), path), Sub(t, d))
    ensures Plug(Step(d, t.cell, Sub(t, Flip(d)), path), Sub(t, d)) == Plug(path, t)
  {
  }

  lemma ZipSide(m: Mem, nil: Node, root: Node, path: Path, t: Tree)
    requires Zip(m, nil, root, path, t) && path.Step?
    ensures Zip(m, nil, root, Step(Flip(path.d), path.cell, t, path.up), path.sib)
  {
    ZipUp(m, nil, root, path, t);
    ZipDown(m, nil, root, path.up, Join(path.d, path.cell, t, path.sib), Flip(path.d));
  }

  lemma {:induction false} ZipTop(m: Mem, nil: Node, root: Node, path: Path, t: Tree)
    requires Zip(m, nil, root, path, t)
    ensures Zip(m, nil, root, Top, Plug(path, t))
    decreases path
  {
    if path.Step? {
      ZipUp(m, nil, root, path, t);
      ZipTop(m, nil, root, path.up, Join(path.d, path.cell, t, path.sib));
    }
  }

  // The way back down: any one-hole view of the tree fits the memory.
  lemma {:induction false} ZipAt(m: Mem, nil: Node, root: Node, path: Path, t: Tree)
    requires Zip(m, nil, root, Top, Plug(path, t))
    ensures Zip(m, nil, root, path, t)
    decreases path
  {
    if path.Step? {
      var whole := Join(path.d, path.cell, t, path.sib);
      ZipAt(m, nil, root, path.up, whole);
      ZipDown(m, nil, root, path.up, whole, path.d);
    }
  }

  lemma {:induction false} PlugIds(path: Path, t: Tree)
    ensures Ids(Plug(path, t)) == PathIds(path) + Ids(t)
    decreases path
  {
    if path.Step? {
      PlugIds(path.up, Join(path.d, path.cell, t, path.sib));
    }
  }

  lemma {:induction false} IdsOfInorder(t: Tree)
    ensures Ids(t) == set e | e in Inorder(t) :: e.n
  {
    if t.Bin? {
      IdsOfInorder(t.l);
      IdsOfInorder(t.r);
      assert EntryOf(t.cell) in Inorder(t);
    }
  }

  lemma SameIds(t: Tree, t': Tree)
    requires Inorder(t) == Inorder(t')
    ensures Ids(t) == Ids(t')
  {
    IdsOfInorder(t);
    IdsOfInorder(t');
  }

  lemma GrownIds(path: Path, z: Cell)
    requires InsertInv(path, Bin(z, Nil, Nil))
    ensures Ids(InsertFix(path, Bin(z, Nil, Nil))) == Ids(Plug(path, Nil)) + {z.n}
  {
    var t := Bin(z, Nil, Nil);
    PlugIds(path, t);
    PlugIds(path, Nil);
    InsertFixKeepsOrder(path, t);
    SameIds(InsertFix(path, t), Plug(path, t));
  }

  lemma {:induction false} NilOutside(m: Mem, nil: Node, p: Node, t: Tree)
    requires Rep(m, nil, p, t)
    ensures nil !in Ids(t)
  {
    if t.Bin? {
      NilOutside(m, nil, t.cell.n, t.l);
      NilOutside(m, nil, t.cell.n, t.r);
    }
  }

  // One node and its two subtrees, seen from side `d`.
  ghost predicate Node3(m: Mem, nil: Node, p: Node, d: Dir, cell: Cell, t: Tree, sib: Tree) {
    && cell.n in m && cell.n != nil
    && m[cell.n] == (if d.Left? then RecOf(nil, p, cell, RootOf(nil, t), RootOf(nil, sib))
                     else RecOf(nil, p, cell, RootOf(nil, sib), RootOf(nil, t)))
    && cell.n !in Ids(t) && cell.n !in Ids(sib) && Ids(t) !! Ids(sib)
    && Rep(m, nil, cell.n, t) && Rep(m, nil, cell.n, sib)
  }

  lemma JoinRep(m: Mem, nil: Node, p: Node, d: Dir, cell: Cell, t: Tree, sib: Tree)
    ensures Rep(m, nil, p, Join(d, cell, t, sib)) <==> Node3(m, nil, p, d, cell, t, sib)
    ensures Ids(Join(d, cell, t, sib)) == Ids(t) + {cell.n} + Ids(sib)
  {
  }

  // ---------- Frames ----------

  ghost predicate Agree(m: Mem, m': Mem, s: set<Node>) {
    forall x :: x in s && x in m ==> x in m' && m'[x] == m[x]
  }

  lemma {:induction false} FrameRep(m: Mem, m': Mem, nil: Node, p: Node, t: Tree)
    requires Rep(m, nil, p, t) && Agree(m, m', Ids(t))
    ensures Rep(m', nil, p, t)
  {
    if t.Bin? {
      FrameRep(m, m', nil, t.cell.n, t.l);
      FrameRep(m, m', nil, t.cell.n, t.r);
    }
  }

  lemma {:induction false} FramePath(m: Mem, m': Mem, nil: Node, root: Node, path: Path, x: Node)
    requires RepPath(m, nil, root, path, x) && Agree(m, m', PathIds(path))
    ensures RepPath(m', nil, root, path, x)
  {
    if path.Step? {
      FrameRep(m, m', nil, path.cell.n, path.sib);
      FramePath(m, m', nil, root, path.up, path.cell.n);
    }
  }

  // Only the parent link of the topmost node (if there is one) differs.
  lemma Reparent(m: Mem, m': Mem, nil: Node, p: Node, p': Node, t: Tree)
    requires Rep(m, nil, p, t)
    requires Agree(m, m', Ids(t) - {RootOf(nil, t)})
    requires t.Bin? ==> t.cell.n in m' && m'[t.cell.n] == m[t.cell.n].(parent := p')
    ensures Rep(m', nil, p', t)
  {
    if t.Bin? {
      FrameRep(m, m', nil, t.cell.n, t.l);
      FrameRep(m, m', nil, t.cell.n, t.r);
    }
  }

  // ---------- Links ----------

  // The links around the focus, as the code reads them.
  lemma FocusLinks(m: Mem, nil: Node, root: Node, path: Path, t: Tree)
    requires Zip(m, nil, root, path, t)
    ensures path.Top? ==> root == RootOf(nil, t)
    ensures path.Step? ==>
      var p := path.cell.n;
      && p in m && p != nil && p != RootOf(nil, t)
      && m[p].c == path.cell.c && m[p].parent == ParentOf(nil, path.up)
      && Kid(m[p], path.d) == RootOf(nil, t) && Kid(m[p], Flip(path.d)) == RootOf(nil, path.sib)
      && (RootOf(nil, t) == RootOf(nil, path.sib) ==> t.Nil? && path.sib.Nil?)
    ensures t.Bin? ==>
      && t.cell.n in m && t.cell.n != nil
      && m[t.cell.n] == RecOf(nil, ParentOf(nil, path), t.cell, RootOf(nil, t.l), RootOf(nil, t.r))
  {
  }

  lemma KidLinks(m: Mem, nil: Node, p: Node, t: Tree)
    requires Rep(m, nil, p, t) && t.Bin?
    ensures RootOf(nil, t.l) == nil <==> t.l.Nil?
    ensures RootOf(nil, t.r) == nil <==> t.r.Nil?
  {
    assert Rep(m, nil, t.cell.n, t.l) && Rep(m, nil, t.cell.n, t.r);
  }

  // The four nodes a rotation writes are different nodes.
  lemma RotateLinks(m: Mem, nil: Node, root: Node, path: Path, d: Dir, t: Tree)
    requires Zip(m, nil, root, path, t) && t.Bin? && Sub(t, Flip(d)).Bin?
    ensures
      var y := Sub(t, Flip(d));
      var b := RootOf(nil, Sub(y, d));
      && y.cell.n in m && y.cell.n != nil && y.cell.n != t.cell.n && y.cell.n != ParentOf(nil, path)
      && Kid(m[y.cell.n], d) == b
      && (b != nil ==> b in m && b != t.cell.n && b != y.cell.n && b != ParentOf(nil, path))
  {
    var y := Sub(t, Flip(d));
    JoinRep(m, nil, ParentOf(nil, path), Flip(d), t.cell, y, Sub(t, d));
    JoinRep(m, nil, t.cell.n, Flip(d), y.cell, Sub(y, Flip(d)), Sub(y, d));
    assert path.Step? ==> ParentOf(nil, path) in PathIds(path);
    assert Sub(y, d).Bin? ==> RootOf(nil, Sub(y, d)) in Ids(Sub(y, d));
  }

  // ---------- Assignments ----------

  // Hang `x'` where `x` hung: the root pointer or one child link changes.
  ghost predicate Relinked(m: Mem, m': Mem, nil: Node, root: Node, root': Node, path: Path, x': Node) {
    match path
    case Top => root' == x'
    case Step(d, cell, _, _) =>
      cell.n in m && cell.n in m' && root' == root && m'[cell.n] == WithKid(m[cell.n], d, x')
  }

  // Node `x` hangs in the hole of `path`, and no sibling can be mistaken for it.
  ghost predicate Hangs(m: Mem, nil: Node, path: Path, x: Node) {
    path.Step? ==>
      var p := path.cell.n;
      p in m && p != nil && Kid(m[p], path.d) == x && Kid(m[p], Flip(path.d)) != x
  }

  function WithParent(m: Mem, x: Node, p: Node): Mem
    requires x in m
  {
    m[x := m[x].(parent := p)]
  }

  function WithChild(m: Mem, path: Path, x: Node): Mem
    requires path.Step? ==> path.cell.n in m
  {
    if path.Step? then m[path.cell.n := WithKid(m[path.cell.n], path.d, x)] else m
  }

  lemma RelinkPath(m: Mem, m': Mem, nil: Node, root: Node, root': Node, path: Path, x: Node, x': Node)
    requires RepPath(m, nil, root, path, x) && Relinked(m, m', nil, root, root', path, x')
    requires Agree(m, m', PathIds(path) - {ParentOf(nil, path)})
    ensures RepPath(m', nil, root', path, x')
  {
    if path.Step? {
      FrameRep(m, m', nil, path.cell.n, path.sib);
      FramePath(m, m', nil, root, path.up, path.cell.n);
    }
  }

  lemma ZipPaint(m: Mem, nil: Node, root: Node, path: Path, t: Tree, c: Color)
    requires Zip(m, nil, root, path, t) && t.Bin?
    ensures Zip(m[t.cell.n := m[t.cell.n].(c := c)], nil, root, path, t.(cell := Painted(t.cell, c)))
  {
    var m' := m[t.cell.n := m[t.cell.n].(c := c)];
    FrameRep(m, m', nil, t.cell.n, t.l);
    FrameRep(m, m', nil, t.cell.n, t.r);
    FramePath(m, m', nil, root, path, t.cell.n);
  }

  // The memory after a rotation at `x` that lifts its child `y` on side Flip(d);
  // `b` is the node that changes sides, or nil.
  ghost predicate RotatedAt(m: Mem, m': Mem, nil: Node, parent: Node, d: Dir, x: Node, y: Node, b: Node) {
    && x in m && y in m && x in m' && y in m' && nil in m && nil in m'
    && m'[x] == WithKid(m[x], Flip(d), b).(parent := y)
    && m'[y] == WithKid(m[y], d, x).(parent := parent)
    && m'[nil] == m[nil]
    && (b != nil ==> b in m && b in m' && m'[b] == m[b].(parent := x))
    && (forall z :: z in m && z != x && z != y && z != parent && z != b ==> z in m' && m'[z] == m[z])
  }

  lemma RotateParts(m: Mem, m': Mem, nil: Node, p: Node,
                    d: Dir, x: Cell, y: Cell, a: Tree, b: Tree, c: Tree)
    requires Node3(m, nil, p, Flip(d), x, Join(Flip(d), y, c, b), a)
    requires RotatedAt(m, m', nil, p, d, x.n, y.n, RootOf(nil, b))
    requires p !in Ids(a) + Ids(b) + Ids(c)
    ensures Node3(m, nil, x.n, Flip(d), y, c, b)
    ensures Rep(m', nil, x.n, a) && Rep(m', nil, x.n, b) && Rep(m', nil, y.n, c)
  {
    JoinRep(m, nil, x.n, Flip(d), y, c, b);
    assert RootOf(nil, b) !in Ids(a) + Ids(c) by {
      NilOutside(m, nil, x.n, a);
      NilOutside(m, nil, y.n, c);
    }
    FrameRep(m, m', nil, x.n, a);
    FrameRep(m, m', nil, y.n, c);
    Reparent(m, m', nil, y.n, x.n, b);
  }

  lemma RotateRep(m: Mem, m': Mem, nil: Node, p: Node,
                  d: Dir, x: Cell, y: Cell, a: Tree, b: Tree, c: Tree)
    requires Rep(m, nil, p, Join(Flip(d), x, Join(Flip(d), y, c, b), a))
    requires RotatedAt(m, m', nil, p, d, x.n, y.n, RootOf(nil, b))
    requires p !in Ids(a) + Ids(b) + Ids(c)
    ensures Rep(m', nil, p, Join(Flip(d), y, c, Join(Flip(d), x, b, a)))
  {
    var e := Flip(d);
    JoinRep(m, nil, p, e, x, Join(e, y, c, b), a);
    RotateParts(m, m', nil, p, d, x, y, a, b, c);
    JoinRep(m, nil, x.n, e, y, c, b);
    JoinRep(m', nil, y.n, e, x, b, a);
    JoinRep(m', nil, p, e, y, c, Join(e, x, b, a));
  }

  lemma ZipRotate(m: Mem, m': Mem, nil: Node, root: Node, root': Node, path: Path,
                  d: Dir, x: Cell, y: Cell, a: Tree, b: Tree, c: Tree)
    requires Zip(m, nil, root, path, Join(Flip(d), x, Join(Flip(d), y, c, b), a))
    requires Relinked(m, m', nil, root, root', path, y.n)
    requires RotatedAt(m, m', nil, ParentOf(nil, path), d, x.n, y.n, RootOf(nil, b))
    ensures Zip(m', nil, root', path, Join(Flip(d), y, c, Join(Flip(d), x, b, a)))
  {
    var t, t' := Join(Flip(d), x, Join(Flip(d), y, c, b), a), Join(Flip(d), y, c, Join(Flip(d), x, b, a));
    assert Ids(t) == Ids(c) + {y.n} + Ids(b) + {x.n} + Ids(a) == Ids(t');
    assert path.Step? ==> ParentOf(nil, path) in PathIds(path);
    assert b.Bin? ==> RootOf(nil, b) in Ids(b);
    assert nil !in Ids(t) by { NilOutside(m, nil, ParentOf(nil, path), t); }
    RotateRep(m, m', nil, ParentOf(nil, path), d, x, y, a, b, c);
    RelinkPath(m, m', nil, root, root', path, x.n, y.n);
  }

  // What the assignments of a rotation at `x` leave in memory, in the order they happen.
  function Unhooked(m: Mem, nil: Node, d: Dir, x: Node, b: Node): Mem
    requires x in m && (b != nil ==> b in m)
  {
    var m1 := m[x := WithKid(m[x], Flip(d), b)];
    if b != nil then WithParent(m1, b, x) else m1
  }

  function Hooked(m: Mem, d: Dir, x: Node, y: Node): Mem
    requires x in m && y in m
  {
    WithParent(m[y := WithKid(m[y], d, x)], x, y)
  }

  lemma ZipRotation(m: Mem, nil: Node, root: Node, path: Path, d: Dir, t: Tree)
    requires Zip(m, nil, root, path, t) && t.Bin? && Sub(t, Flip(d)).Bin?
    ensures
      var x, y, b := t.cell.n, Sub(t, Flip(d)).cell.n, RootOf(nil, Sub(Sub(t, Flip(d)), d));
      && x in m && y in m && (b != nil ==> b in m) && (path.Step? ==> path.cell.n in m)
      && var m2 := Unhooked(m, nil, d, x, b);
         var m3 := WithChild(WithParent(m2, y, ParentOf(nil, path)), path, y);
         Zip(Hooked(m3, d, x, y), nil, if path.Top? then y else root, path, Rotate(d, t))
  {
    FocusLinks(m, nil, root, path, t);
    RotateLinks(m, nil, root, path, d, t);
    var low := Sub(t, Flip(d));
    var x, y, b := t.cell.n, low.cell.n, RootOf(nil, Sub(low, d));
    var m2 := Unhooked(m, nil, d, x, b);
    var m3 := WithChild(WithParent(m2, y, ParentOf(nil, path)), path, y);
    ZipRotate(m, Hooked(m3, d, x, y), nil, root, if path.Top? then y else root, path,
              d, t.cell, low.cell, Sub(t, d), Sub(low, d), Sub(low, Flip(d)));
  }

  // ---------- Insertion and removal ----------

  // `x` becomes a red node without children.
  function Leafed(m: Mem, nil: Node, x: Node): Mem
    requires x in m
  {
    var a := m[x := WithKid(m[x], Left, nil)];
    var b := a[x := WithKid(a[x], Right, nil)];
    b[x := b[x].(c := Red)]
  }

  // A fresh node `z` with record `r` is hung in an empty hole as a red leaf.
  lemma ZipAttach(m: Mem, nil: Node, root: Node, path: Path, z: Cell, r: Rec)
    requires Zip(m, nil, root, path, Nil) && z.n !in m && z.c.Red?
    requires r.k == z.k && r.v == z.v
    ensures path.Step? ==> path.cell.n in m && path.cell.n != z.n
    ensures
      var m' := WithChild(WithParent(m[z.n := r], z.n, ParentOf(nil, path)), path, z.n);
      Zip(Leafed(m', nil, z.n), nil, if path.Top? then z.n else root,
          path, Bin(z, Nil, Nil))
  {
    PathInMemory(m, nil, root, path, nil);
    var m1 := WithChild(WithParent(m[z.n := r], z.n, ParentOf(nil, path)), path, z.n);
    var m' := Leafed(m1, nil, z.n);
    RelinkPath(m, m', nil, root, if path.Top? then z.n else root, path, nil, z.n);
  }

  lemma {:induction false} TreeInMemory(m: Mem, nil: Node, p: Node, t: Tree)
    requires Rep(m, nil, p, t)
    ensures Ids(t) <= m.Keys - {nil}
  {
    if t.Bin? {
      TreeInMemory(m, nil, t.cell.n, t.l);
      TreeInMemory(m, nil, t.cell.n, t.r);
    }
  }

  lemma {:induction false} PathInMemory(m: Mem, nil: Node, root: Node, path: Path, x: Node)
    requires RepPath(m, nil, root, path, x)
    ensures PathIds(path) <= m.Keys - {nil}
    ensures path.Step? ==> root in PathIds(path)
  {
    if path.Step? {
      TreeInMemory(m, nil, path.cell.n, path.sib);
      PathInMemory(m, nil, root, path.up, path.cell.n);
    }
  }

  // A node with at most one child is unlinked: the child (or nil) takes its place, and its
  // parent link is right even when it is nil.
  lemma ZipSplice(m: Mem, nil: Node, root: Node, path: Path, t: Tree, tx: Tree)
    requires Zip(m, nil, root, path, t) && t.Bin?
    requires (t.l.Nil? && tx == t.r) || (t.r.Nil? && tx == t.l)
    ensures
      var x, p := RootOf(nil, tx), ParentOf(nil, path);
      && x in m && (path.Step? ==> p in m && p != x && p != t.cell.n)
      && var m' := WithChild(WithParent(m, x, p), path, x);
         && Zip(m', nil, if path.Top? then x else root, path, tx)
         && x in m' && m'[x].parent == p
  {
    var x, p := RootOf(nil, tx), ParentOf(nil, path);
    assert Rep(m, nil, t.cell.n, tx) && (tx.Bin? ==> x in Ids(tx));
    assert path.Step? ==> p in PathIds(path);
    PathInMemory(m, nil, root, path, t.cell.n);
    var m' := WithChild(WithParent(m, x, p), path, x);
    Reparent(m, m', nil, t.cell.n, p, tx);
    RelinkPath(m, m', nil, root, if path.Top? then x else root, path, t.cell.n, x);
  }

  lemma {:induction false} RebaseMemory(m: Mem, nil: Node, root: Node, path: Path, x: Node,
                                        base: Path, k: int, v: Value)
    requires RepPath(m, nil, root, path, x) && Leftward(path, base) && base.Step?
    ensures base.cell.n in m && base.cell.n in PathIds(path)
    ensures RepPath(m[base.cell.n := m[base.cell.n].(k := k, v := v)], nil, root, Rebase(path, base, k, v), x)
    ensures PathIds(Rebase(path, base, k, v)) == PathIds(path)
    decreases path
  {
    if path == base {
      var m' := m[base.cell.n := m[base.cell.n].(k := k, v := v)];
      FrameRep(m, m', nil, base.cell.n, base.sib);
      FramePath(m, m', nil, root, base.up, base.cell.n);
    } else {
      RebaseMemory(m, nil, root, path.up, path.cell.n, base, k, v);
      var m' := m[base.cell.n := m[base.cell.n].(k := k, v := v)];
      FrameRep(m, m', nil, path.cell.n, path.sib);
    }
  }

  // The key and value of a node above the focus are overwritten.
  lemma ZipRebase(m: Mem, nil: Node, root: Node, path: Path, t: Tree, base: Path, k: int, v: Value)
    requires Zip(m, nil, root, path, t) && Leftward(path, base) && base.Step?
    ensures base.cell.n in m && base.cell.n != nil
    ensures Zip(m[base.cell.n := m[base.cell.n].(k := k, v := v)], nil, root, Rebase(path, base, k, v), t)
  {
    RebaseMemory(m, nil, root, path, RootOf(nil, t), base, k, v);
    PathInMemory(m, nil, root, path, RootOf(nil, t));
    var m' := m[base.cell.n := m[base.cell.n].(k := k, v := v)];
    FrameRep(m, m', nil, ParentOf(nil, path), t);
    if path != base { assert ParentOf(nil, Rebase(path, base, k, v)) == ParentOf(nil, path); }
  }

  // Memory outside the tree does not matter.
  lemma ZipForget(m: Mem, m': Mem, nil: Node, root: Node, t: Tree)
    requires Zip(m, nil, root, Top, t) && nil in m' && m'[nil].c.Black?
    requires forall x :: x in Ids(t) ==> x in m && x in m' && m'[x] == m[x]
    ensures Zip(m', nil, root, Top, t)
  {
    FrameRep(m, m', nil, nil, t);
  }

  // The nodes that stay after a removal.
  lemma PrunedIds(path: Path, tx: Tree, c: Color)
    requires c.Black? ==> DeleteInv(path, tx)
    ensures Ids(Pruned(path, tx, c)) == PathIds(path) + Ids(tx)
  {
    PlugIds(path, tx);
    if c.Black? {
      DeleteFixKeepsOrder(path, tx);
      SameIds(DeleteFix(path, tx), Plug(path, tx));
    }
  }

  lemma RemovalIds(m: Mem, nil: Node, root: Node, path: Path, t: Tree, tx: Tree, base: Path)
    requires Zip(m, nil, root, path, t) && Removal(path, t, tx, base)
    requires t.cell.c.Black? ==> DeleteInv(PathAfter(path, t, base), tx)
    ensures Ids(Pruned(PathAfter(path, t, base), tx, t.cell.c)) == Ids(Plug(path, t)) - {t.cell.n}
    ensures t.cell.n in Ids(Plug(path, t))
  {
    PrunedIds(PathAfter(path, t, base), tx, t.cell.c);
    PlugIds(path, t);
    if base.Step? {
      RebaseMemory(m, nil, root, path, t.cell.n, base, t.cell.k, t.cell.v);
    }
  }

  // Every entry of a tree can be brought into focus.
  lemma {:induction false} FocusEntry(path: Path, t: Tree, e: Entry) returns (path': Path, t': Tree)
    requires e in Inorder(t)
    ensures Plug(path', t') == Plug(path, t) && t'.Bin? && EntryOf(t'.cell) == e
    decreases t
  {
    if EntryOf(t.cell) == e {
      path', t' := path, t;
    } else if e in Inorder(t.l) {
      path', t' := FocusEntry(Step(Left, t.cell, t.r, path), t.l, e);
    } else {
      path', t' := FocusEntry(Step(Right, t.cell, t.l, path), t.r, e);
    }
  }

  lemma FocusNode(t: Tree, n: Node) returns (path': Path, t': Tree)
    requires n in Ids(t)
    ensures Plug(path', t') == t && t'.Bin? && t'.cell.n == n
  {
    IdsOfInorder(t);
    var e :| e in Inorder(t) && e.n == n;
    path', t' := FocusEntry(Top, t, e);
  }
}
