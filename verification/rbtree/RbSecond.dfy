// The insert fixup as rbtree/rbtree.cpp writes it: it keeps the grandparent in `y` and reaches
// the uncle through it, and on the left side it colours the grandparent before the uncle.

module RbSecond {
  import opened RbModel
  import RbMemory
  import opened RbTrees

  method Recolor(T: RbTree, z: Node, y: Node, e: Dir, ghost path: Path, ghost t: Tree)
    requires T.At(path, t) && t.Bin? && z == t.cell.n
    requires path.Step? && path.up.Step? && path.up.sib.Bin? && y == path.up.cell.n && path.up.d == e
    modifies T.nodes`color
    ensures T.At(path.up.up, Recolored(path, t))
  {
    ghost var Step(d, p, s, Step(_, g, u, top)) := path;
    T.Links(path, t);
    RbMemory.ZipUp(T.Snap(), T.nil, T.root, path, t);
    T.Links(path.up, Join(d, p, t, s));
    T.SetColor(z.parent, Black, path.up, Join(d, p, t, s));
    ghost var p' := Join(d, Painted(p, Black), t, s);
    if e.Left? {
      RbMemory.ZipUp(T.Snap(), T.nil, T.root, path.up, p');
      T.Links(top, Join(e, g, p', u));
      T.SetColor(y, Red, top, Join(e, g, p', u));
      ghost var whole := Join(e, Painted(g, Red), p', u);
      RbMemory.ZipDown(T.Snap(), T.nil, T.root, top, whole, Right);
      T.Links(top, whole);
      T.Links(Step(Right, Painted(g, Red), p', top), u);
      T.SetColor(y.right, Black, Step(Right, Painted(g, Red), p', top), u);
      RbMemory.ZipUp(T.Snap(), T.nil, T.root, Step(Right, Painted(g, Red), p', top), Blacken(u));
    } else {
      RbMemory.ZipSide(T.Snap(), T.nil, T.root, path.up, p');
      T.Links(path.up, p');
      T.Links(Step(Flip(e), g, p', top), u);
      T.SetColor(y.left, Black, Step(Flip(e), g, p', top), u);
      RbMemory.ZipUp(T.Snap(), T.nil, T.root, Step(Flip(e), g, p', top), Blacken(u));
      T.Links(top, Join(e, g, p', Blacken(u)));
      T.SetColor(y, Red, top, Join(e, g, p', Blacken(u)));
    }
  }

  method InsertTurn(T: RbTree, z0: Node, e: Dir, ghost path0: Path, ghost t0: Tree)
    returns (z: Node, ghost path: Path, ghost t: Tree)
    requires T.At(path0, t0) && InsertInv(path0, t0) && z0 == t0.cell.n
    requires path0.Step? && path0.cell.c.Red? && path0.up.Step? && path0.up.d == e
    modifies T`root, T`rotations, T.nodes
    ensures T.At(path, t) && InsertInv(path, t) && z == t.cell.n && Len(path) < Len(path0)
    ensures InsertFix(path, t) == InsertFix(path0, t0)
    ensures T.rotations + InsertRotations(path, t) == old(T.rotations) + InsertRotations(path0, t0)
  {
    z, path, t := z0, path0, t0;
    T.UncleLinks(path, t);
    RecoloredInv(path, t);
    var y := z.parent.parent;
    if T.Side(y, Flip(e)).color.Red? {
      Recolor(T, z, y, e, path, t);
      z := y;
      path, t := path.up.up, Recolored(path, t);
    } else {
      if z == T.Side(z.parent, Flip(e)) {
        TurnedInv(path, t);
        z := T.Straighten(z, Flip(e), path, t);
        path, t := TurnedPath(path, t), TurnedTree(path, t);
      }
      RaisedInv(path, t);
      T.RaiseParent(z, e, path, t);
      path := RaisedPath(path);
    }
  }

  // The two forms do the same to every tree, with as many rotations.
  method InsertFixup(T: RbTree, z0: Node, ghost path0: Path, ghost t0: Tree)
    requires T.At(path0, t0) && InsertInv(path0, t0) && z0 == t0.cell.n
    modifies T`root, T`rotations, T.nodes
    ensures T.At(Top, InsertFix(path0, t0)) && T.rotations == old(T.rotations) + InsertRotations(path0, t0)
  {
    var z := z0;
    ghost var path, t := path0, t0;
    while z.parent.color.Red?
      invariant T.At(path, t) && InsertInv(path, t) && z == t.cell.n
      invariant InsertFix(path, t) == InsertFix(path0, t0)
      invariant T.rotations + InsertRotations(path, t) == old(T.rotations) + InsertRotations(path0, t0)
      decreases Len(path)
    {
      T.Links(path, t);
      T.UncleLinks(path, t);
      if z.parent == z.parent.parent.left {
        z, path, t := InsertTurn(T, z, Left, path, t);
      } else {
        z, path, t := InsertTurn(T, z, Right, path, t);
      }
    }
    T.FinishInsert(path, t);
    T.SetColor(T.root, Black, Top, Plug(path, t));
  }
}
