// Red-black trees as values: trees, one-hole paths through them, the balance and
// order invariants, and what the two fixup loops of rbtree/main.cpp do to them.

module RbModel {

  type Value = int  // the opaque `void *value` of a node

  datatype Color = Red | Black

  // A node as the C program lays it out. Links never hold NULL: the sentinel `nil`
  // stands for "no node", and a node that is in no tree holds arbitrary links.
  class Node {
    var color: Color
    var right: Node
    var left: Node
    var parent: Node
    var key: int
    var value: Value

    constructor (key: int, value: Value)
      ensures this.key == key && this.value == value
    {
      color, this.key, this.value := Black, key, value;
      right, left, parent := this, this, this;
    }
  }

  datatype Cell = Cell(n: Node, c: Color, k: int, v: Value)

  datatype Tree = Nil | Bin(cell: Cell, l: Tree, r: Tree)

  datatype Dir = Left | Right

  // The way from a subtree up to the root: the hole is child `d` of `cell`,
  // whose other child is `sib`.
  datatype Path = Top | Step(d: Dir, cell: Cell, sib: Tree, up: Path)

  function Flip(d: Dir): Dir {
    if d.Left? then Right else Left
  }

  function Join(d: Dir, cell: Cell, t: Tree, sib: Tree): Tree {
    if d.Left? then Bin(cell, t, sib) else Bin(cell, sib, t)
  }

  function Sub(t: Tree, d: Dir): Tree
    requires t.Bin?
  {
    if d.Left? then t.l else t.r
  }

  // A rotation towards `d`: the child on the other side rises (d = Left: a left rotation).
  function Rotate(d: Dir, t: Tree): Tree
    requires t.Bin? && Sub(t, Flip(d)).Bin?
  {
    var y := Sub(t, Flip(d));
    Join(Flip(d), y.cell, Sub(y, Flip(d)), Join(Flip(d), t.cell, Sub(y, d), Sub(t, d)))
  }

  function Plug(path: Path, t: Tree): Tree
    decreases path
  {
    match path
    case Top => t
    case Step(d, cell, sib, up) => Plug(up, Join(d, cell, t, sib))
  }

  lemma {:induction false} NeverEmpty(path: Path, t: Tree)
    requires path.Step? || t.Bin?
    ensures Plug(path, t).Bin?
    decreases path
  {
    if path.Step? { NeverEmpty(path.up, Join(path.d, path.cell, t, path.sib)); }
  }

  function Len(path: Path): nat {
    match path
    case Top => 0
    case Step(_, _, _, up) => 1 + Len(up)
  }

  // ---------- Balance ----------

  predicate IsRed(t: Tree) {
    t.Bin? && t.cell.c.Red?
  }

  function ColorOf(t: Tree): Color {
    if t.Bin? then t.cell.c else Black
  }

  function Weight(c: Color): nat {
    if c.Black? then 1 else 0
  }

  function BlackHeight(t: Tree): nat {
    match t
    case Nil => 0
    case Bin(cell, l, _) => BlackHeight(l) + Weight(cell.c)
  }

  // Equal black heights on all paths and no red node with a red child.
  predicate Balanced(t: Tree) {
    t.Bin? ==>
      && Balanced(t.l) && Balanced(t.r)
      && BlackHeight(t.l) == BlackHeight(t.r)
      && (t.cell.c.Red? ==> !IsRed(t.l) && !IsRed(t.r))
  }

  predicate IsRedBlack(t: Tree) {
    Balanced(t) && !IsRed(t)
  }

  // What `path` asks of the subtree in its hole: black height `h`, root colour `c`.
  predicate Fits(path: Path, h: nat, c: Color) {
    match path
    case Top => true
    case Step(_, cell, sib, up) =>
      && Balanced(sib) && BlackHeight(sib) == h
      && (cell.c.Red? ==> c.Black? && !IsRed(sib) && up.Step?)
      && Fits(up, h + Weight(cell.c), cell.c)
  }

  lemma JoinBalanced(d: Dir, cell: Cell, t: Tree, sib: Tree)
    requires Balanced(t) && Balanced(sib) && BlackHeight(t) == BlackHeight(sib)
    requires cell.c.Red? ==> !IsRed(t) && !IsRed(sib)
    ensures Balanced(Join(d, cell, t, sib))
    ensures BlackHeight(Join(d, cell, t, sib)) == BlackHeight(t) + Weight(cell.c)
  {
  }

  lemma BlackenBalanced(t: Tree)
    requires Balanced(t)
    ensures Balanced(Blacken(t))
    ensures BlackHeight(Blacken(t)) == BlackHeight(t) + if IsRed(t) then 1 else 0
  {
  }

  lemma FitsBlack(path: Path, h: nat, c: Color)
    requires Fits(path, h, c)
    ensures Fits(path, h, Black)
  {
  }

  lemma {:induction false} PlugFits(path: Path, t: Tree)
    requires Balanced(t) && Fits(path, BlackHeight(t), ColorOf(t))
    ensures Balanced(Plug(path, t))
    ensures path.Step? ==> IsRedBlack(Plug(path, t))
    decreases path
  {
    match path
    case Top =>
    case Step(d, cell, sib, up) => PlugFits(up, Join(d, cell, t, sib));
  }

  lemma {:induction false} UnplugFits(path: Path, t: Tree)
    requires IsRedBlack(Plug(path, t))
    ensures Balanced(t) && Fits(path, BlackHeight(t), ColorOf(t))
    decreases path
  {
    match path
    case Top =>
    case Step(d, cell, sib, up) => UnplugFits(up, Join(d, cell, t, sib));
  }

  // ---------- Order ----------

  datatype Entry = Entry(n: Node, k: int, v: Value)

  function EntryOf(cell: Cell): Entry {
    Entry(cell.n, cell.k, cell.v)
  }

  function Inorder(t: Tree): seq<Entry> {
    match t
    case Nil => []
    case Bin(cell, l, r) => Inorder(l) + [EntryOf(cell)] + Inorder(r)
  }

  function Before(path: Path): seq<Entry> {
    match path
    case Top => []
    case Step(d, cell, sib, up) =>
      if d.Left? then Before(up) else Before(up) + Inorder(sib) + [EntryOf(cell)]
  }

  function After(path: Path): seq<Entry> {
    match path
    case Top => []
    case Step(d, cell, sib, up) =>
      if d.Left? then [EntryOf(cell)] + Inorder(sib) + After(up) else After(up)
  }

  lemma JoinCongruence(d: Dir, x: Cell, x': Cell, t: Tree, t': Tree, s: Tree, s': Tree)
    requires EntryOf(x) == EntryOf(x') && Inorder(t) == Inorder(t') && Inorder(s) == Inorder(s')
    ensures Inorder(Join(d, x, t, s)) == Inorder(Join(d, x', t', s'))
  {
  }

  // A rotation at `p` that lifts `q`.
  lemma RotationInorder(d: Dir, p: Cell, q: Cell, t: Tree, s: Tree, u: Tree)
    ensures Inorder(Join(d, p, Join(d, q, t, s), u)) == Inorder(Join(d, q, t, Join(d, p, s, u)))
  {
    if d.Left? {
      Associative(Inorder(t), EntryOf(q), Inorder(s), EntryOf(p), Inorder(u));
    } else {
      Associative(Inorder(u), EntryOf(p), Inorder(s), EntryOf(q), Inorder(t));
    }
  }

  lemma Associative(a: seq<Entry>, x: Entry, b: seq<Entry>, y: Entry, c: seq<Entry>)
    ensures (a + [x] + b) + [y] + c == a + [x] + (b + [y] + c)
  {
  }

  lemma {:induction false} PlugInorder(path: Path, t: Tree)
    ensures Inorder(Plug(path, t)) == Before(path) + Inorder(t) + After(path)
    decreases path
  {
    match path
    case Top =>
    case Step(d, cell, sib, up) => PlugInorder(up, Join(d, cell, t, sib));
  }

  ghost predicate AllBelow(s: seq<Entry>, key: int) {
    forall e :: e in s ==> e.k < key
  }

  ghost predicate AllAbove(s: seq<Entry>, key: int) {
    forall e :: e in s ==> key < e.k
  }

  ghost predicate Less(a: seq<Entry>, b: seq<Entry>) {
    forall x, y :: x in a && y in b ==> x.k < y.k
  }

  // Search order: keys strictly increase from left to right.
  ghost predicate Ordered(s: seq<Entry>) {
    s != [] ==> AllAbove(s[1..], s[0].k) && Ordered(s[1..])
  }

  // The key-to-value map that a sequence of entries stands for.
  function MapOf(s: seq<Entry>): map<int, Value> {
    if s == [] then map[] else map[s[0].k := s[0].v] + MapOf(s[1..])
  }

  lemma {:induction false} OrderedConcat(a: seq<Entry>, b: seq<Entry>)
    ensures Ordered(a + b) <==> Ordered(a) && Ordered(b) && Less(a, b)
  {
    if a == [] {
      assert a + b == b;
    } else {
      assert (a + b)[0] == a[0] && (a + b)[1..] == a[1..] + b && a == [a[0]] + a[1..];
      OrderedConcat(a[1..], b);
    }
  }

  lemma OrderedAround(a: seq<Entry>, e: Entry, b: seq<Entry>)
    ensures Ordered(a + [e] + b) <==> Ordered(a + b) && AllBelow(a, e.k) && AllAbove(b, e.k)
  {
    OrderedConcat(a, b);
    OrderedConcat(a + [e], b);
    OrderedConcat(a, [e]);
    assert Ordered([e]);
    assert e in [e];
  }

  lemma {:induction false} MapConcat(a: seq<Entry>, b: seq<Entry>)
    ensures MapOf(a + b) == MapOf(a) + MapOf(b)
  {
    if a == [] {
      assert a + b == b;
    } else {
      assert (a + b)[0] == a[0] && (a + b)[1..] == a[1..] + b;
      MapConcat(a[1..], b);
      MapAssociative(map[a[0].k := a[0].v], MapOf(a[1..]), MapOf(b));
    }
  }

  lemma MapAssociative(x: map<int, Value>, y: map<int, Value>, z: map<int, Value>)
    ensures x + (y + z) == (x + y) + z
  {
  }

  lemma {:induction false} MapKeys(s: seq<Entry>, key: int)
    ensures key in MapOf(s) <==> exists e :: e in s && e.k == key
  {
    if s != [] {
      MapKeys(s[1..], key);
      assert s == [s[0]] + s[1..];
    }
  }

  // Adding or dropping one entry where its key belongs.
  lemma MapAround(a: seq<Entry>, e: Entry, b: seq<Entry>)
    requires AllBelow(a, e.k) && AllAbove(b, e.k)
    ensures e.k !in MapOf(a + b)
    ensures MapOf(a + [e] + b) == MapOf(a + b)[e.k := e.v]
    ensures MapOf(a + b) == MapOf(a + [e] + b) - {e.k}
  {
    OneEntry(e);
    hide MapOf;
    MapKeys(a, e.k);
    MapKeys(b, e.k);
    MapConcat(a, b);
    MapConcat(a + [e], b);
    MapConcat(a, [e]);
    MapUpdate(MapOf(a), e.k, e.v, MapOf(b));
  }

  lemma OneEntry(e: Entry)
    ensures MapOf([e]) == map[e.k := e.v]
  {
  }

  lemma MapUpdate(x: map<int, Value>, k: int, v: Value, y: map<int, Value>)
    requires k !in x && k !in y
    ensures x + map[k := v] + y == (x + y)[k := v]
    ensures x + y == (x + map[k := v] + y) - {k}
  {
  }

  // In search order, the keys above `e` start right after it.
  lemma LaterKeys(a: seq<Entry>, e: Entry, later: seq<Entry>)
    requires Ordered(a + [e] + later)
    ensures forall k :: k in MapOf(a + [e] + later) && k > e.k ==> later != [] && k >= later[0].k
    ensures later != [] ==> later[0] in a + [e] + later && later[0].k > e.k && later[0].k in MapOf(a + [e] + later)
  {
    var s := a + [e] + later;
    OrderedAround(a, e, later);
    OrderedConcat(a, later);
    assert forall x :: x in s <==> x in a || x == e || x in later;
    if later != [] {
      MapKeys(s, later[0].k);
      FirstIsLeast(later);
    }
    forall k | k in MapOf(s) && k > e.k ensures later != [] && k >= later[0].k {
      MapKeys(s, k);
    }
  }

  lemma FirstIsLeast(s: seq<Entry>)
    requires Ordered(s) && s != []
    ensures forall x :: x in s ==> x.k >= s[0].k
  {
    assert s == [s[0]] + s[1..];
  }

  // Entry `f` moves into the place of entry `e`, under the node of `e`.
  lemma MergeEntries(a: seq<Entry>, e: Entry, f: Entry, b: seq<Entry>)
    requires Ordered(a + [e] + ([f] + b))
    ensures Ordered(a + [Entry(e.n, f.k, f.v)] + b)
    ensures MapOf(a + [Entry(e.n, f.k, f.v)] + b) == MapOf(a + [e] + ([f] + b)) - {e.k}
  {
    var f' := Entry(e.n, f.k, f.v);
    OrderedAround(a, e, [f] + b);
    MapAround(a, e, [f] + b);
    assert a + ([f] + b) == a + [f] + b;
    OrderedAround(a, f, b);
    OrderedAround(a, f', b);
    MapAround(a, f, b);
    MapAround(a, f', b);
  }

  // Every key left of the hole is smaller, and every key right of it is larger.
  ghost predicate Brackets(path: Path, key: int) {
    AllBelow(Before(path), key) && AllAbove(After(path), key)
  }

  // The entry at the focus, with everything before it and after it.
  lemma SplitAt(path: Path, t: Tree)
    requires t.Bin?
    ensures Inorder(Plug(path, t)) ==
      (Before(path) + Inorder(t.l)) + [EntryOf(t.cell)] + (Inorder(t.r) + After(path))
  {
    PlugInorder(path, t);
    Regroup(Before(path), Inorder(t.l), [EntryOf(t.cell)], Inorder(t.r), After(path));
  }

  lemma Regroup(a: seq<Entry>, b: seq<Entry>, e: seq<Entry>, c: seq<Entry>, d: seq<Entry>)
    ensures a + (b + e + c) + d == (a + b) + e + (c + d)
  {
  }

  lemma BracketsDown(path: Path, t: Tree, key: int)
    requires t.Bin? && Ordered(Inorder(Plug(path, t))) && Brackets(path, key) && key != t.cell.k
    ensures
      var d := if key < t.cell.k then Left else Right;
      Brackets(Step(d, t.cell, Sub(t, Flip(d)), path), key)
  {
    SplitAt(path, t);
    var a, b := Before(path) + Inorder(t.l), Inorder(t.r) + After(path);
    OrderedAround(a, EntryOf(t.cell), b);
  }

  // ---------- The insert fixup ----------

  function Painted(cell: Cell, c: Color): Cell {
    cell.(c := c)
  }

  function Blacken(t: Tree): Tree {
    if t.Bin? then t.(cell := Painted(t.cell, Black)) else t
  }

  // `t` has a red root; the only red-red edge of the whole tree may be the one above it.
  predicate InsertInv(path: Path, t: Tree) {
    IsRed(t) && Balanced(t) && Fits(path, BlackHeight(t), Black)
  }

  // One turn of the loop in the recolouring case moves the focus two levels up.
  function Recolored(path: Path, t: Tree): Tree
    requires path.Step? && path.up.Step?
  {
    var Step(d, p, s, Step(e, g, u, top)) := path;
    Join(e, Painted(g, Red), Join(d, Painted(p, Black), t, s), Blacken(u))
  }

  // The rotating case: the subtree that takes the grandparent's place.
  function Rotated(path: Path, t: Tree): Tree
    requires path.Step? && path.up.Step? && t.Bin?
  {
    var Step(d, p, s, Step(e, g, u, top)) := path;
    if d == e then
      Join(e, Painted(p, Black), t, Join(e, Painted(g, Red), s, u))
    else
      Join(e, Painted(t.cell, Black), Join(d, p, Sub(t, e), s), Join(e, Painted(g, Red), Sub(t, d), u))
  }

  lemma RecoloredInv(path: Path, t: Tree)
    requires InsertInv(path, t) && path.Step? && path.cell.c.Red?
    ensures path.up.Step? && path.up.cell.c.Black?
    ensures IsRed(path.up.sib) ==> InsertInv(path.up.up, Recolored(path, t))
  {
    var g, u, top := path.up.cell, path.up.sib, path.up.up;
    assert Fits(path.up, BlackHeight(t), Red);
    if IsRed(u) {
      JoinBalanced(path.d, Painted(path.cell, Black), t, path.sib);
      assert Balanced(Blacken(u)) && BlackHeight(Blacken(u)) == BlackHeight(t) + 1;
      JoinBalanced(path.up.d, Painted(g, Red), Join(path.d, Painted(path.cell, Black), t, path.sib), Blacken(u));
    }
  }

  lemma RotatedBalanced(path: Path, t: Tree)
    requires InsertInv(path, t) && path.Step? && path.cell.c.Red? && path.up.Step? && !IsRed(path.up.sib)
    ensures Balanced(Rotated(path, t))
    ensures Fits(path.up.up, BlackHeight(Rotated(path, t)), Black) && !IsRed(Rotated(path, t))
  {
    var Step(d, p, s, Step(e, g, u, top)) := path;
    assert Fits(path.up, BlackHeight(t), Red);
    if d == e {
      JoinBalanced(e, Painted(g, Red), s, u);
      JoinBalanced(e, Painted(p, Black), t, Join(e, Painted(g, Red), s, u));
    } else {
      JoinBalanced(d, p, Sub(t, e), s);
      JoinBalanced(e, Painted(g, Red), Sub(t, d), u);
      JoinBalanced(e, Painted(t.cell, Black), Join(d, p, Sub(t, e), s), Join(e, Painted(g, Red), Sub(t, d), u));
    }
  }

  // An inner grandchild trades places with its parent, which becomes the focus.
  function TurnedPath(path: Path, t: Tree): Path
    requires path.Step? && path.up.Step? && t.Bin?
  {
    Step(path.up.d, t.cell, Sub(t, path.d), path.up)
  }

  function TurnedTree(path: Path, t: Tree): Tree
    requires path.Step? && t.Bin?
  {
    Join(path.d, path.cell, Sub(t, Flip(path.d)), path.sib)
  }

  // Where the focus sits after the rotation at the grandparent.
  function RaisedPath(path: Path): Path
    requires path.Step? && path.up.Step?
  {
    var Step(d, p, s, Step(_, g, u, top)) := path;
    Step(d, Painted(p, Black), Join(d, Painted(g, Red), s, u), top)
  }

  // The whole tree once the loop and the final blackening of the root are done.
  function InsertFix(path: Path, t: Tree): Tree
    requires InsertInv(path, t)
    decreases path
  {
    if path.Top? then Blacken(t)
    else if path.cell.c.Black? then Plug(path, t)
    else
      RecoloredInv(path, t);
      if IsRed(path.up.sib) then InsertFix(path.up.up, Recolored(path, t))
      else Plug(path.up.up, Rotated(path, t))
  }

  function InsertRotations(path: Path, t: Tree): nat
    requires InsertInv(path, t)
    decreases path
  {
    if path.Top? || path.cell.c.Black? then 0
    else
      RecoloredInv(path, t);
      if IsRed(path.up.sib) then InsertRotations(path.up.up, Recolored(path, t))
      else if path.d == path.up.d then 1 else 2
  }

  // Once the parent has risen, it is black and the loop stops with the same tree.
  lemma RaisedInv(path: Path, t: Tree)
    requires InsertInv(path, t) && path.Step? && path.cell.c.Red? && path.up.Step? && !IsRed(path.up.sib)
    requires path.d == path.up.d
    ensures InsertInv(RaisedPath(path), t)
    ensures InsertFix(RaisedPath(path), t) == InsertFix(path, t)
    ensures InsertRotations(RaisedPath(path), t) == 0
  {
    RotatedBalanced(path, t);
    assert Rotated(path, t) == Join(path.d, RaisedPath(path).cell, t, RaisedPath(path).sib);
  }

  lemma TurnedInv(path: Path, t: Tree)
    requires InsertInv(path, t) && path.Step? && path.cell.c.Red? && path.up.Step? && !IsRed(path.up.sib)
    requires path.d != path.up.d
    ensures InsertInv(TurnedPath(path, t), TurnedTree(path, t))
    ensures InsertFix(TurnedPath(path, t), TurnedTree(path, t)) == InsertFix(path, t)
    ensures InsertRotations(path, t) == 2 && InsertRotations(TurnedPath(path, t), TurnedTree(path, t)) == 1
  {
    assert Balanced(Sub(t, path.d)) && Balanced(Sub(t, path.up.d));
    JoinBalanced(path.d, path.cell, Sub(t, path.up.d), path.sib);
    assert Fits(path.up, BlackHeight(t), Red);
    assert BlackHeight(TurnedTree(path, t)) == BlackHeight(t) == BlackHeight(Sub(t, path.d));
    assert Rotated(TurnedPath(path, t), TurnedTree(path, t)) == Rotated(path, t);
  }

  lemma {:induction false} InsertFixBalances(path: Path, t: Tree)
    requires InsertInv(path, t)
    ensures IsRedBlack(InsertFix(path, t))
    ensures InsertRotations(path, t) <= 2
    decreases path
  {
    if path.Top? {
    } else if path.cell.c.Black? {
      PlugFits(path, t);
    } else if IsRed(path.up.sib) {
      RecoloredInv(path, t);
      InsertFixBalances(path.up.up, Recolored(path, t));
    } else {
      RotatedBalanced(path, t);
      PlugFits(path.up.up, Rotated(path, t));
    }
  }

  lemma {:induction false} InsertFixKeepsOrder(path: Path, t: Tree)
    requires InsertInv(path, t)
    ensures Inorder(InsertFix(path, t)) == Inorder(Plug(path, t))
    decreases path
  {
    PlugInorder(path, t);
    if path.Top? || path.cell.c.Black? {
    } else if IsRed(path.up.sib) {
      RecoloredInv(path, t);
      RecoloredInorder(path, t);
      InsertFixKeepsOrder(path.up.up, Recolored(path, t));
    } else {
      RotatedInorder(path, t);
    }
  }

  lemma RecoloredInorder(path: Path, t: Tree)
    requires path.Step? && path.up.Step?
    ensures Inorder(Plug(path.up.up, Recolored(path, t))) == Inorder(Plug(path, t))
  {
    PlugInorder(path.up.up, Recolored(path, t));
    var Step(d, p, s, Step(e, g, u, top)) := path;
    PlugInorder(top, Join(e, g, Join(d, p, t, s), u));
  }

  lemma RotatedInorder(path: Path, t: Tree)
    requires path.Step? && path.up.Step? && t.Bin?
    ensures Inorder(Plug(path.up.up, Rotated(path, t))) == Inorder(Plug(path, t))
  {
    PlugInorder(path.up.up, Rotated(path, t));
    var Step(d, p, s, Step(e, g, u, top)) := path;
    PlugInorder(top, Join(e, g, Join(d, p, t, s), u));
    var p', g' := Painted(p, Black), Painted(g, Red);
    if d == e {
      JoinCongruence(e, p, p', t, t, s, s);
      JoinCongruence(e, g, g', Join(e, p, t, s), Join(e, p', t, s), u, u);
      RotationInorder(e, g', p', t, s, u);
    } else {
      var z, near, far := Painted(t.cell, Black), Sub(t, e), Sub(t, d);
      JoinCongruence(e, t.cell, z, near, near, far, far);
      JoinCongruence(d, p, p, t, Join(d, z, far, near), s, s);
      RotationInorder(d, p, z, far, near, s);
      JoinCongruence(e, g, g', Join(d, p, t, s), Join(d, z, far, Join(d, p, near, s)), u, u);
      RotationInorder(e, g', z, Join(d, p, near, s), far, u);
    }
  }

  // Inserting a red leaf in an empty hole, then fixing up.
  lemma GrownTree(path: Path, z: Cell)
    requires z.c.Red? && Brackets(path, z.k)
    requires IsRedBlack(Plug(path, Nil)) && Ordered(Inorder(Plug(path, Nil)))
    ensures InsertInv(path, Bin(z, Nil, Nil))
    ensures
      var grown, old_ := InsertFix(path, Bin(z, Nil, Nil)), Plug(path, Nil);
      && IsRedBlack(grown) && Ordered(Inorder(grown))
      && MapOf(Inorder(grown)) == MapOf(Inorder(old_))[z.k := z.v]
      && InsertRotations(path, Bin(z, Nil, Nil)) <= 2
  {
    var t := Bin(z, Nil, Nil);
    UnplugFits(path, Nil);
    InsertFixBalances(path, t);
    InsertFixKeepsOrder(path, t);
    PlugInorder(path, Nil);
    PlugInorder(path, t);
    assert Before(path) + [] == Before(path) && Inorder(t) == [EntryOf(z)];
    OrderedAround(Before(path), EntryOf(z), After(path));
    MapAround(Before(path), EntryOf(z), After(path));
  }

  // ---------- The delete fixup ----------

  // `t` is one black node short of what `path` asks for. A red root of `t` is about to be
  // blackened, so it may have red children.
  predicate DeleteInv(path: Path, t: Tree) {
    Balanced(Blacken(t)) && Fits(path, BlackHeight(t) + 1, Black)
  }

  // Red sibling: it rises above the parent, and the focus sinks one level.
  function Sunk(path: Path): Path
    requires path.Step? && path.sib.Bin?
  {
    var Step(d, p, w, up) := path;
    Step(d, Painted(p, Red), Sub(w, d), Step(d, Painted(w.cell, Black), Sub(w, Flip(d)), up))
  }

  // Black sibling with black children: the shortage moves to the parent.
  function Lifted(path: Path, t: Tree): Tree
    requires path.Step? && path.sib.Bin?
  {
    Join(path.d, path.cell, t, path.sib.(cell := Painted(path.sib.cell, Red)))
  }

  // Black sibling whose far child is black and whose near child is red: the near child
  // becomes the sibling.
  function NearRaised(d: Dir, w: Tree): Tree
    requires w.Bin? && Sub(w, d).Bin?
  {
    var n := Sub(w, d);
    Join(d, Painted(n.cell, Black), Sub(n, d), Join(d, Painted(w.cell, Red), Sub(n, Flip(d)), Sub(w, Flip(d))))
  }

  // Black sibling with a red far child: the sibling takes the parent's place and colour.
  function FarRaised(path: Path, t: Tree, w: Tree): Tree
    requires path.Step? && w.Bin?
  {
    var Step(d, p, _, up) := path;
    Join(d, Painted(w.cell, p.c), Join(d, Painted(p, Black), t, Sub(w, d)), Blacken(Sub(w, Flip(d))))
  }

  function Sibling(path: Path): Tree
    requires path.Step? && path.sib.Bin?
    requires !IsRed(Sub(path.sib, Flip(path.d))) ==> Sub(path.sib, path.d).Bin?
  {
    if IsRed(Sub(path.sib, Flip(path.d))) then path.sib else NearRaised(path.d, path.sib)
  }

  // The termination measure of the loop; a red sibling makes the path one step longer,
  // but then the parent is red and the next turn is the last.
  function Measure(path: Path, t: Tree): nat {
    if path.Top? || IsRed(t) then 0
    else if path.cell.c.Red? then 1
    else if IsRed(path.sib) then 2 * Len(path) + 3
    else 2 * Len(path) + 2
  }

  // The sibling is a real node, so reading its children is safe; after sinking, the new
  // sibling is a real node too, and black.
  lemma SunkInv(path: Path, t: Tree)
    requires DeleteInv(path, t) && path.Step?
    ensures path.sib.Bin?
    ensures IsRed(path.sib) ==> path.cell.c.Black? && DeleteInv(Sunk(path), t)
    ensures IsRed(path.sib) ==> Sunk(path).sib.Bin? && !IsRed(Sunk(path).sib)
  {
    if IsRed(path.sib) {
      var w := path.sib;
      assert BlackHeight(w.l) == BlackHeight(w.r) == BlackHeight(w);
      assert Fits(Sunk(path).up, BlackHeight(t) + 1, Red);
    }
  }

  lemma LiftedInv(path: Path, t: Tree)
    requires DeleteInv(path, t) && path.Step? && path.sib.Bin? && !IsRed(path.sib)
    requires !IsRed(t) && !IsRed(path.sib.l) && !IsRed(path.sib.r)
    ensures DeleteInv(path.up, Lifted(path, t))
  {
    var w := path.sib.(cell := Painted(path.sib.cell, Red));
    assert Balanced(w) && BlackHeight(w) == BlackHeight(t);
    JoinBalanced(path.d, Painted(path.cell, Black), t, w);
    assert BlackHeight(Lifted(path, t)) == BlackHeight(t) + Weight(path.cell.c);
    FitsBlack(path.up, BlackHeight(Lifted(path, t)) + 1, path.cell.c);
  }

  function DeleteFix(path: Path, t: Tree): Tree
    requires DeleteInv(path, t)
    decreases Measure(path, t)
  {
    if path.Top? then Blacken(t)
    else if IsRed(t) then Plug(path, Blacken(t))
    else
      SunkInv(path, t);
      if IsRed(path.sib) then DeleteFix(Sunk(path), t)
      else if !IsRed(path.sib.l) && !IsRed(path.sib.r) then
        LiftedInv(path, t);
        DeleteFix(path.up, Lifted(path, t))
      else Plug(path.up, FarRaised(path, t, Sibling(path)))
  }

  function DeleteRotations(path: Path, t: Tree): nat
    requires DeleteInv(path, t)
    decreases Measure(path, t)
  {
    if path.Top? || IsRed(t) then 0
    else
      SunkInv(path, t);
      if IsRed(path.sib) then 1 + DeleteRotations(Sunk(path), t)
      else if !IsRed(path.sib.l) && !IsRed(path.sib.r) then
        LiftedInv(path, t);
        DeleteRotations(path.up, Lifted(path, t))
      else if IsRed(Sub(path.sib, Flip(path.d))) then 1 else 2
  }

  // What the invariant says about the sibling and its two children.
  lemma NephewsBalanced(path: Path, t: Tree)
    requires DeleteInv(path, t) && path.Step? && path.sib.Bin? && !IsRed(path.sib) && !IsRed(t)
    ensures Balanced(t) && Balanced(path.sib.l) && Balanced(path.sib.r)
    ensures BlackHeight(path.sib.l) == BlackHeight(path.sib.r) == BlackHeight(t)
    ensures Fits(path.up, BlackHeight(t) + 1 + Weight(path.cell.c), path.cell.c)
  {
  }

  lemma FarRaisedBalanced(path: Path, t: Tree)
    requires DeleteInv(path, t) && path.Step? && path.sib.Bin? && !IsRed(path.sib) && !IsRed(t)
    requires IsRed(Sub(path.sib, Flip(path.d)))
    ensures var r := FarRaised(path, t, path.sib); Balanced(r) && Fits(path.up, BlackHeight(r), ColorOf(r))
  {
    var Step(d, p, w, up) := path;
    var near, far := Sub(w, d), Sub(w, Flip(d));
    NephewsBalanced(path, t);
    hide Balanced, Fits;
    JoinBalanced(d, Painted(p, Black), t, near);
    BlackenBalanced(far);
    JoinBalanced(d, Painted(w.cell, p.c), Join(d, Painted(p, Black), t, near), Blacken(far));
  }

  lemma NearRaisedBalanced(path: Path, t: Tree)
    requires DeleteInv(path, t) && path.Step? && path.sib.Bin? && !IsRed(path.sib) && !IsRed(t)
    requires IsRed(Sub(path.sib, path.d)) && !IsRed(Sub(path.sib, Flip(path.d)))
    ensures var r := FarRaised(path, t, NearRaised(path.d, path.sib));
      Balanced(r) && Fits(path.up, BlackHeight(r), ColorOf(r))
  {
    var Step(d, p, w, up) := path;
    var near, far := Sub(w, d), Sub(w, Flip(d));
    NephewsBalanced(path, t);
    assert Balanced(near.l) && Balanced(near.r) && BlackHeight(near.l) == BlackHeight(near.r) == BlackHeight(t);
    hide Balanced, Fits;
    JoinBalanced(d, Painted(w.cell, Black), Sub(near, Flip(d)), far);
    JoinBalanced(d, Painted(p, Black), t, Sub(near, d));
    JoinBalanced(d, Painted(near.cell, p.c), Join(d, Painted(p, Black), t, Sub(near, d)),
                 Join(d, Painted(w.cell, Black), Sub(near, Flip(d)), far));
  }

  lemma RaisedBalanced(path: Path, t: Tree)
    requires DeleteInv(path, t) && path.Step? && path.sib.Bin? && !IsRed(path.sib) && !IsRed(t)
    requires IsRed(path.sib.l) || IsRed(path.sib.r)
    ensures var r := FarRaised(path, t, Sibling(path));
      Balanced(r) && Fits(path.up, BlackHeight(r), ColorOf(r))
  {
    hide Balanced, Fits, DeleteInv, FarRaised, NearRaised;
    if IsRed(Sub(path.sib, Flip(path.d))) {
      FarRaisedBalanced(path, t);
    } else {
      NearRaisedBalanced(path, t);
    }
  }

  // The near child has risen: the sibling is still black, now with a red far child.
  function NearPath(path: Path): Path
    requires path.Step? && path.sib.Bin? && Sub(path.sib, path.d).Bin?
  {
    path.(sib := NearRaised(path.d, path.sib))
  }

  lemma RaisedDone(path: Path, t: Tree)
    requires DeleteInv(path, t) && path.Step? && path.sib.Bin? && !IsRed(path.sib) && !IsRed(t)
    requires IsRed(path.sib.l) || IsRed(path.sib.r)
    ensures var whole := Plug(path.up, FarRaised(path, t, Sibling(path)));
      && whole.Bin? && DeleteInv(Top, whole) && DeleteFix(Top, whole) == DeleteFix(path, t) == whole
  {
    var r := FarRaised(path, t, Sibling(path));
    RaisedBalanced(path, t);
    PlugFits(path.up, r);
    NeverEmpty(path.up, r);
    BlackenBalanced(Plug(path.up, r));
  }

  lemma {:induction false} DeleteFixBalances(path: Path, t: Tree)
    requires DeleteInv(path, t)
    ensures IsRedBlack(DeleteFix(path, t))
    ensures DeleteRotations(path, t) <= if path.Step? && path.cell.c.Black? then 3 else 2
    decreases Measure(path, t)
  {
    if path.Top? {
    } else if IsRed(t) {
      PlugFits(path, Blacken(t));
    } else {
      SunkInv(path, t);
      if IsRed(path.sib) {
        DeleteFixBalances(Sunk(path), t);
      } else if !IsRed(path.sib.l) && !IsRed(path.sib.r) {
        LiftedInv(path, t);
        DeleteFixBalances(path.up, Lifted(path, t));
      } else {
        RaisedBalanced(path, t);
        PlugFits(path.up, FarRaised(path, t, Sibling(path)));
      }
    }
  }

  lemma SunkInorder(path: Path, t: Tree)
    requires path.Step? && path.sib.Bin?
    ensures Inorder(Plug(Sunk(path), t)) == Inorder(Plug(path, t))
  {
    var Step(d, p, w, up) := path;
    var p', w' := Painted(p, Red), Painted(w.cell, Black);
    var near, far := Sub(w, d), Sub(w, Flip(d));
    PlugInorder(up, Join(d, p, t, w));
    PlugInorder(up, Join(d, w', Join(d, p', t, near), far));
    JoinCongruence(d, w.cell, w', near, near, far, far);
    JoinCongruence(d, p, p', t, t, w, Join(Flip(d), w', far, near));
    RotationInorder(Flip(d), p', w', far, near, t);
  }

  lemma RaisedInorder(path: Path, t: Tree, w: Tree)
    requires path.Step? && w.Bin?
    ensures Inorder(FarRaised(path, t, w)) == Inorder(Join(path.d, path.cell, t, w))
  {
    var Step(d, p, _, up) := path;
    var p', w' := Painted(p, Black), Painted(w.cell, p.c);
    var near, far := Sub(w, d), Blacken(Sub(w, Flip(d)));
    JoinCongruence(d, w.cell, w', near, near, Sub(w, Flip(d)), far);
    JoinCongruence(d, p, p', t, t, w, Join(Flip(d), w', far, near));
    RotationInorder(Flip(d), p', w', far, near, t);
  }

  lemma NearRaisedInorder(d: Dir, w: Tree)
    requires w.Bin? && Sub(w, d).Bin?
    ensures Inorder(NearRaised(d, w)) == Inorder(w)
  {
    var n, far := Sub(w, d), Sub(w, Flip(d));
    var n', w' := Painted(n.cell, Black), Painted(w.cell, Red);
    JoinCongruence(d, n.cell, n', Sub(n, d), Sub(n, d), Sub(n, Flip(d)), Sub(n, Flip(d)));
    JoinCongruence(d, w.cell, w', n, Join(d, n', Sub(n, d), Sub(n, Flip(d))), far, far);
    RotationInorder(d, w', n', Sub(n, d), Sub(n, Flip(d)), far);
  }

  lemma {:induction false} DeleteFixKeepsOrder(path: Path, t: Tree)
    requires DeleteInv(path, t)
    ensures Inorder(DeleteFix(path, t)) == Inorder(Plug(path, t))
    decreases Measure(path, t)
  {
    if path.Top? {
    } else if IsRed(t) {
      PlugInorder(path, t);
      PlugInorder(path, Blacken(t));
    } else {
      SunkInv(path, t);
      if IsRed(path.sib) {
        SunkInorder(path, t);
        DeleteFixKeepsOrder(Sunk(path), t);
      } else if !IsRed(path.sib.l) && !IsRed(path.sib.r) {
        LiftedInv(path, t);
        DeleteFixKeepsOrder(path.up, Lifted(path, t));
        PlugInorder(path.up, Lifted(path, t));
        PlugInorder(path.up, Join(path.d, path.cell, t, path.sib));
      } else {
        var w := Sibling(path);
        if !IsRed(Sub(path.sib, Flip(path.d))) {
          NearRaisedInorder(path.d, path.sib);
        }
        RaisedInorder(path, t, w);
        JoinCongruence(path.d, path.cell, path.cell, t, t, w, path.sib);
        PlugInorder(path.up, FarRaised(path, t, w));
        PlugInorder(path.up, Join(path.d, path.cell, t, path.sib));
      }
    }
  }

  // ---------- Moving an entry up to a node above it ----------

  // `path` goes from `base` only to the left.
  predicate Leftward(path: Path, base: Path) {
    path == base || (path.Step? && path.d.Left? && Leftward(path.up, base))
  }

  // The key and value of the lowest node of `base` are overwritten.
  function Overwritten(base: Path, k: int, v: Value): Path
    requires base.Step?
  {
    base.(cell := base.cell.(k := k, v := v))
  }

  function Rebase(path: Path, base: Path, k: int, v: Value): Path
    requires Leftward(path, base) && base.Step?
  {
    if path == base then Overwritten(base, k, v) else path.(up := Rebase(path.up, base, k, v))
  }

  lemma {:induction false} RebaseKeepsBalance(path: Path, base: Path, k: int, v: Value, h: nat, c: Color)
    requires Leftward(path, base) && base.Step?
    requires Fits(path, h, c)
    ensures Fits(Rebase(path, base, k, v), h, c)
    decreases path
  {
    if path != base {
      RebaseKeepsBalance(path.up, base, k, v, h + Weight(path.cell.c), path.cell.c);
    }
  }

  lemma {:induction false} RebaseOrder(path: Path, base: Path, k: int, v: Value)
    requires Leftward(path, base) && base.Step? && base.d.Right?
    ensures Before(path) == Before(base.up) + Inorder(base.sib) + [EntryOf(base.cell)]
    ensures Before(Rebase(path, base, k, v)) == Before(base.up) + Inorder(base.sib) + [Entry(base.cell.n, k, v)]
    ensures After(Rebase(path, base, k, v)) == After(path)
    decreases path
  {
    if path != base {
      RebaseOrder(path.up, base, k, v);
    }
  }

  // ---------- Deletion as a whole ----------

  // A node with at most one child leaves; `tx` is what remains below it.
  predicate Leaves(t: Tree, tx: Tree) {
    t.Bin? && ((t.l.Nil? && tx == t.r) || (t.r.Nil? && tx == t.l))
  }

  lemma LeavingInv(path: Path, t: Tree, tx: Tree)
    requires IsRedBlack(Plug(path, t)) && Leaves(t, tx)
    ensures Balanced(tx) && Fits(path, BlackHeight(tx) + Weight(t.cell.c), Black)
    ensures t.cell.c.Red? ==> !IsRed(tx) && path.Step?
  {
    UnplugFits(path, t);
    if path.Top? { assert Plug(path, t) == t; }
    LeavingFits(path, t, tx);
  }

  lemma LeavingFits(path: Path, t: Tree, tx: Tree)
    requires Leaves(t, tx) && Balanced(t) && Fits(path, BlackHeight(t), t.cell.c)
    ensures Balanced(tx) && Fits(path, BlackHeight(tx) + Weight(t.cell.c), Black)
    ensures t.cell.c.Red? ==> !IsRed(tx)
  {
    BlackHeightOf(t);
    FitsBlack(path, BlackHeight(t), t.cell.c);
  }

  lemma BlackHeightOf(t: Tree)
    requires Balanced(t) && t.Bin?
    ensures BlackHeight(t) == BlackHeight(t.l) + Weight(t.cell.c) == BlackHeight(t.r) + Weight(t.cell.c)
  {
  }

  // The tree after the removed node (of colour `c`) is gone and the fixup has run.
  function Pruned(path: Path, tx: Tree, c: Color): Tree
    requires c.Black? ==> DeleteInv(path, tx)
  {
    if c.Black? then DeleteFix(path, tx) else Plug(path, tx)
  }

  function PrunedRotations(path: Path, tx: Tree, c: Color): nat
    requires c.Black? ==> DeleteInv(path, tx)
  {
    if c.Black? then DeleteRotations(path, tx) else 0
  }

  lemma PrunedBalances(path: Path, tx: Tree, c: Color)
    requires Balanced(tx) && Fits(path, BlackHeight(tx) + Weight(c), Black)
    requires c.Red? ==> !IsRed(tx) && path.Step?
    ensures c.Black? ==> DeleteInv(path, tx)
    ensures IsRedBlack(Pruned(path, tx, c)) && PrunedRotations(path, tx, c) <= 3
    ensures Inorder(Pruned(path, tx, c)) == Before(path) + Inorder(tx) + After(path)
  {
    BlackenBalanced(tx);
    PlugInorder(path, tx);
    if c.Black? {
      DeleteFixBalances(path, tx);
      DeleteFixKeepsOrder(path, tx);
    } else {
      PlugFits(path, tx);
    }
  }

  // The node itself is unlinked.
  lemma PrunedInPlace(path: Path, t: Tree, tx: Tree)
    requires IsRedBlack(Plug(path, t)) && Ordered(Inorder(Plug(path, t))) && Leaves(t, tx)
    ensures t.cell.c.Black? ==> DeleteInv(path, tx)
    ensures
      var old_, new_ := Plug(path, t), Pruned(path, tx, t.cell.c);
      && IsRedBlack(new_) && Ordered(Inorder(new_)) && PrunedRotations(path, tx, t.cell.c) <= 3
      && MapOf(Inorder(new_)) == MapOf(Inorder(old_)) - {t.cell.k}
  {
    LeavingInv(path, t, tx);
    PrunedBalances(path, tx, t.cell.c);
    SplitAt(path, t);
    var a, b := Before(path) + Inorder(t.l), Inorder(t.r) + After(path);
    assert Inorder(t.l) + Inorder(t.r) == Inorder(tx);
    Regroup3(Before(path), Inorder(t.l), Inorder(t.r), After(path));
    OrderedAround(a, EntryOf(t.cell), b);
    MapAround(a, EntryOf(t.cell), b);
  }

  // The successor is unlinked, and its entry moves up to the node at the bottom of `base`.
  lemma PrunedBelow(path: Path, t: Tree, tx: Tree, base: Path)
    requires IsRedBlack(Plug(path, t)) && Ordered(Inorder(Plug(path, t)))
    requires Leaves(t, tx) && t.l.Nil?
    requires Leftward(path, base) && base.Step? && base.d.Right?
    ensures
      var path' := Rebase(path, base, t.cell.k, t.cell.v);
      && (t.cell.c.Black? ==> DeleteInv(path', tx))
      && var old_, new_ := Plug(path, t), Pruned(path', tx, t.cell.c);
         && IsRedBlack(new_) && Ordered(Inorder(new_)) && PrunedRotations(path', tx, t.cell.c) <= 3
         && MapOf(Inorder(new_)) == MapOf(Inorder(old_)) - {base.cell.k}
  {
    LeavingInv(path, t, tx);
    var k, v := t.cell.k, t.cell.v;
    RebaseKeepsBalance(path, base, k, v, BlackHeight(tx) + Weight(t.cell.c), Black);
    RebaseOrder(path, base, k, v);
    PrunedBalances(Rebase(path, base, k, v), tx, t.cell.c);
    SplitAt(path, t);
    var a, b := Before(base.up) + Inorder(base.sib), Inorder(t.r) + After(path);
    assert Before(path) + Inorder(t.l) == a + [EntryOf(base.cell)];
    Regroup2(a, [EntryOf(base.cell)], [EntryOf(t.cell)], b);
    MergeEntries(a, EntryOf(base.cell), EntryOf(t.cell), b);
    Regroup2(a, [Entry(base.cell.n, k, v)], Inorder(tx), After(path));
  }

  lemma Regroup3(a: seq<Entry>, b: seq<Entry>, c: seq<Entry>, d: seq<Entry>)
    ensures (a + b) + (c + d) == a + (b + c) + d
  {
  }

  lemma Regroup2(a: seq<Entry>, b: seq<Entry>, c: seq<Entry>, d: seq<Entry>)
    ensures (a + b) + c + d == a + b + (c + d)
  {
  }

  // Which node leaves (`t`), what stays below it (`tx`), and, when its entry moves up to
  // the node at the bottom of `base`, the path with that entry overwritten.
  predicate Removal(path: Path, t: Tree, tx: Tree, base: Path) {
    && Leaves(t, tx)
    && (base.Step? ==> t.l.Nil? && base.d.Right? && Leftward(path, base))
  }

  function PathAfter(path: Path, t: Tree, base: Path): Path
    requires t.Bin? && (base.Step? ==> Leftward(path, base))
  {
    if base.Step? then Rebase(path, base, t.cell.k, t.cell.v) else path
  }

  function RemovedKey(t: Tree, base: Path): int
    requires t.Bin?
  {
    if base.Step? then base.cell.k else t.cell.k
  }

  lemma PrunedTree(path: Path, t: Tree, tx: Tree, base: Path)
    requires IsRedBlack(Plug(path, t)) && Ordered(Inorder(Plug(path, t)))
    requires Removal(path, t, tx, base)
    ensures t.cell.c.Black? ==> DeleteInv(PathAfter(path, t, base), tx)
    ensures
      var new_ := Pruned(PathAfter(path, t, base), tx, t.cell.c);
      && IsRedBlack(new_) && Ordered(Inorder(new_))
      && PrunedRotations(PathAfter(path, t, base), tx, t.cell.c) <= 3
      && MapOf(Inorder(new_)) == MapOf(Inorder(Plug(path, t))) - {RemovedKey(t, base)}
  {
    if base.Step? {
      PrunedBelow(path, t, tx, base);
    } else {
      PrunedInPlace(path, t, tx);
    }
  }

  // ---------- Height ----------

  function Size(t: Tree): nat {
    match t
    case Nil => 0
    case Bin(_, l, r) => Size(l) + 1 + Size(r)
  }

  function Pow2(n: nat): nat {
    if n == 0 then 1 else 2 * Pow2(n - 1)
  }

  lemma {:induction false} Pow2Adds(a: nat, b: nat)
    ensures Pow2(a + b) == Pow2(a) * Pow2(b)
  {
    if a > 0 {
      Pow2Adds(a - 1, b);
      assert (a - 1) + b == a + b - 1;
      Times2(Pow2(a - 1), Pow2(b));
    }
  }

  lemma Times2(x: nat, y: nat)
    ensures 2 * (x * y) == (2 * x) * y
  {
  }

  lemma {:induction false} BlackHeightBoundsSize(t: Tree)
    requires Balanced(t)
    ensures Pow2(BlackHeight(t)) <= Size(t) + 1
  {
    if t.Bin? {
      BlackHeightBoundsSize(t.l);
      BlackHeightBoundsSize(t.r);
    }
  }

  // Number of nodes on the way from the root down to the hole.
  lemma {:induction false} PathBoundedByBlackHeight(path: Path, t: Tree)
    requires Balanced(t) && Fits(path, BlackHeight(t), ColorOf(t))
    ensures Len(path) + 2 * BlackHeight(t) + (if IsRed(t) then 1 else 0)
              <= 2 * BlackHeight(Plug(path, t)) + (if path.Top? && IsRed(t) then 1 else 0)
    decreases path
  {
    if path.Step? {
      PathBoundedByBlackHeight(path.up, Join(path.d, path.cell, t, path.sib));
    }
  }

  lemma InorderSize(t: Tree)
    ensures |Inorder(t)| == Size(t)
  {
  }

  // A path of `d` links in a red-black tree of `n` nodes has d <= 2 * log2(n + 1).
  lemma PathLength(path: Path, t: Tree)
    requires IsRedBlack(Plug(path, t))
    ensures var n := |Inorder(Plug(path, t))|; Pow2(Len(path)) <= (n + 1) * (n + 1)
  {
    var whole := Plug(path, t);
    UnplugFits(path, t);
    PathBoundedByBlackHeight(path, t);
    BlackHeightBoundsSize(whole);
    InorderSize(whole);
    var h := BlackHeight(whole);
    Pow2Monotone(Len(path), h + h);
    Pow2Adds(h, h);
    SquareMonotone(Pow2(h), Size(whole) + 1);
  }

  lemma {:induction false} Pow2Monotone(a: nat, b: nat)
    requires a <= b
    ensures Pow2(a) <= Pow2(b)
  {
    if a < b { Pow2Monotone(a, b - 1); }
  }

  lemma SquareMonotone(a: nat, b: nat)
    requires a <= b
    ensures a * a <= b * b
  {
    assert a * a <= a * b <= b * b;
  }
}
