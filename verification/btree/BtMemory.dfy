// What it means for linked nodes to be a B-tree, and how the changes of one level change it.

module BtMemory {
  import opened BtModel
  import opened BtDelete
  import opened BtNodes

  // The nodes in memory and what they hold.
  type Mem = map<BNode, Image>

  // A tree that names the node behind each of its parts.
  datatype Tr = Tr(n: BNode, keys: seq<int>, kids: seq<Tr>)

  // ---------- Forgetting the nodes ----------

  function Value(x: Tr): Tree
    decreases x, 0
  {
    Node(x.keys, Values(x.kids))
  }

  function Values(s: seq<Tr>): (r: seq<Tree>)
    ensures |r| == |s|
    decreases s, 1
  {
    if s == [] then [] else [Value(s[0])] + Values(s[1..])
  }

  lemma {:induction false} ValuesAt(s: seq<Tr>, i: nat)
    requires i < |s|
    ensures Values(s)[i] == Value(s[i])
  {
    if i > 0 { ValuesAt(s[1..], i - 1); }
  }

  lemma {:induction false} ValuesConcat(a: seq<Tr>, b: seq<Tr>)
    ensures Values(a + b) == Values(a) + Values(b)
  {
    hide Value;
    if a == [] {
      assert a + b == b;
    } else {
      ValuesConcat(a[1..], b);
      assert (a + b)[1..] == a[1..] + b;
    }
  }

  lemma ValuesCut(s: seq<Tr>, i: nat)
    requires i <= |s|
    ensures Values(s)[..i] == Values(s[..i]) && Values(s)[i..] == Values(s[i..])
  {
    assert s == s[..i] + s[i..];
    ValuesConcat(s[..i], s[i..]);
  }

  lemma ValuesOne(x: Tr)
    ensures Values([x]) == [Value(x)]
  {
    assert [x][1..] == [];
  }

  lemma ValuesTwo(x: Tr, y: Tr)
    ensures Values([x, y]) == [Value(x), Value(y)]
  {
    assert [x, y] == [x] + [y];
    ValuesConcat([x], [y]);
    ValuesOne(x);
    ValuesOne(y);
  }

  // ---------- The tree in memory ----------

  function Tops(s: seq<Tr>): (r: seq<BNode?>)
    ensures |r| == |s|
  {
    seq(|s|, i requires 0 <= i < |s| => s[i].n)
  }

  lemma TopsConcat(a: seq<Tr>, b: seq<Tr>)
    ensures Tops(a + b) == Tops(a) + Tops(b)
  {
  }

  lemma TopsCut(s: seq<Tr>, i: nat)
    requires i <= |s|
    ensures Tops(s)[..i] == Tops(s[..i]) && Tops(s)[i..] == Tops(s[i..])
  {
  }

  function Ids(x: Tr): set<BNode>
    decreases x, 0
  {
    {x.n} + IdsAll(x.kids)
  }

  function IdsAll(s: seq<Tr>): set<BNode>
    decreases s, 1
  {
    if s == [] then {} else Ids(s[0]) + IdsAll(s[1..])
  }

  lemma {:induction false} IdsConcat(a: seq<Tr>, b: seq<Tr>)
    ensures IdsAll(a + b) == IdsAll(a) + IdsAll(b)
  {
    if a == [] {
      assert a + b == b;
    } else {
      IdsConcat(a[1..], b);
      assert (a + b)[1..] == a[1..] + b;
    }
  }

  lemma IdsOne(x: Tr)
    ensures IdsAll([x]) == Ids(x)
  {
    assert [x][1..] == [];
  }

  function ImageOf(x: Tr): Image {
    Image(x.kids == [], x.keys, Tops(x.kids))
  }

  // The node of `x` and those below it are all different and hold what `x` says.
  ghost predicate Rep(m: Mem, x: Tr)
    decreases x, 0
  {
    x.n in m && m[x.n] == ImageOf(x) && x.n !in IdsAll(x.kids) && RepAll(m, x.kids)
  }

  ghost predicate RepAll(m: Mem, s: seq<Tr>)
    decreases s, 1
  {
    s != [] ==> Rep(m, s[0]) && Ids(s[0]) !! IdsAll(s[1..]) && RepAll(m, s[1..])
  }

  lemma {:induction false} RepConcat(m: Mem, a: seq<Tr>, b: seq<Tr>)
    ensures RepAll(m, a + b) <==> RepAll(m, a) && RepAll(m, b) && IdsAll(a) !! IdsAll(b)
  {
    hide Ids, Rep;
    if a == [] {
      assert a + b == b;
    } else {
      RepConcat(m, a[1..], b);
      IdsConcat(a[1..], b);
      assert (a + b)[1..] == a[1..] + b;
    }
  }

  lemma RepOne(m: Mem, x: Tr)
    ensures RepAll(m, [x]) <==> Rep(m, x)
    ensures IdsAll([x]) == Ids(x)
  {
    assert [x][1..] == [];
  }

  lemma RepTwo(m: Mem, x: Tr, y: Tr)
    ensures RepAll(m, [x, y]) <==> Rep(m, x) && Rep(m, y) && Ids(x) !! Ids(y)
    ensures IdsAll([x, y]) == Ids(x) + Ids(y)
  {
    hide Rep, Ids;
    assert [x, y] == [x] + [y];
    RepConcat(m, [x], [y]);
    IdsConcat([x], [y]);
    RepOne(m, x);
    RepOne(m, y);
  }

  // `m'` knows the nodes of `s` and holds for them what `m` holds.
  ghost predicate Agree(m: Mem, m': Mem, s: set<BNode>) {
    forall n :: n in s && n in m ==> n in m' && m'[n] == m[n]
  }

  lemma {:induction false} RepFrame(m: Mem, m': Mem, x: Tr)
    requires Rep(m, x) && Agree(m, m', Ids(x))
    ensures Rep(m', x)
    decreases x, 0
  {
    RepAllFrame(m, m', x.kids);
  }

  lemma {:induction false} RepAllFrame(m: Mem, m': Mem, s: seq<Tr>)
    requires RepAll(m, s) && Agree(m, m', IdsAll(s))
    ensures RepAll(m', s)
    decreases s, 1
  {
    if s != [] {
      RepFrame(m, m', s[0]);
      RepAllFrame(m, m', s[1..]);
    }
  }

  lemma {:induction false} RepKnown(m: Mem, x: Tr)
    requires Rep(m, x)
    ensures Ids(x) <= m.Keys
    decreases x, 0
  {
    RepAllKnown(m, x.kids);
  }

  lemma {:induction false} RepAllKnown(m: Mem, s: seq<Tr>)
    requires RepAll(m, s)
    ensures IdsAll(s) <= m.Keys
    decreases s, 1
  {
    if s != [] {
      RepKnown(m, s[0]);
      RepAllKnown(m, s[1..]);
    }
  }

  // ---------- Replacing some kids of a node ----------

  // Kids `i` to `j` make room for `mid`, and the keys of the node change.
  function Around(x: Tr, i: nat, j: nat, keys: seq<int>, mid: seq<Tr>): Tr
    requires i <= j <= |x.kids|
  {
    Tr(x.n, keys, x.kids[..i] + mid + x.kids[j..])
  }

  lemma Parts(m: Mem, s: seq<Tr>, i: nat, j: nat)
    requires RepAll(m, s) && i <= j <= |s|
    ensures RepAll(m, s[..i]) && RepAll(m, s[i..j]) && RepAll(m, s[j..])
    ensures IdsAll(s[..i]) !! IdsAll(s[i..j]) && IdsAll(s[..i]) !! IdsAll(s[j..]) && IdsAll(s[i..j]) !! IdsAll(s[j..])
    ensures IdsAll(s) == IdsAll(s[..i]) + IdsAll(s[i..j]) + IdsAll(s[j..])
  {
    hide Rep, RepAll, Ids, IdsAll;
    assert s == s[..j] + s[j..] && s[..j] == s[..i] + s[i..j];
    RepConcat(m, s[..j], s[j..]);
    RepConcat(m, s[..i], s[i..j]);
    IdsConcat(s[..j], s[j..]);
    IdsConcat(s[..i], s[i..j]);
  }

  // The nodes of `mid` come from those it replaces, or are new to `m`.
  ghost predicate Drawn(m: Mem, mid: set<BNode>, from: set<BNode>) {
    forall n :: n in mid ==> n in from || n !in m
  }

  lemma RepAround(m: Mem, m': Mem, x: Tr, i: nat, j: nat, keys: seq<int>, mid: seq<Tr>)
    requires Rep(m, x) && i <= j <= |x.kids|
    requires RepAll(m', mid) && Drawn(m, IdsAll(mid), IdsAll(x.kids[i..j]))
    requires Agree(m, m', m.Keys - {x.n} - IdsAll(x.kids[i..j]))
    requires x.n in m' && m'[x.n] == ImageOf(Around(x, i, j, keys, mid))
    ensures Rep(m', Around(x, i, j, keys, mid))
    ensures Drawn(m, Ids(Around(x, i, j, keys, mid)), Ids(x))
  {
    hide RepAll, IdsAll;
    var a, b := x.kids[..i], x.kids[j..];
    Parts(m, x.kids, i, j);
    RepAllKnown(m, x.kids);
    RepAllFrame(m, m', a);
    RepAllFrame(m, m', b);
    RepConcat(m', a, mid);
    IdsConcat(a, mid);
    RepConcat(m', a + mid, b);
    IdsConcat(a + mid, b);
  }

  // One kid is replaced by what became of it.
  function WithTr(x: Tr, i: nat, c: Tr): Tr
    requires i < |x.kids|
  {
    Around(x, i, i + 1, x.keys, [c])
  }

  lemma WithTrValue(x: Tr, i: nat, c: Tr)
    requires i < |x.kids|
    ensures Value(WithTr(x, i, c)) == WithKid(Value(x), i, Value(c))
  {
    hide Values;
    ValuesAround(x, i, i + 1, x.keys, [c]);
    ValuesOne(c);
    var kids := Value(x).kids;
    assert kids[..i] + [Value(c)] + kids[i + 1..] == kids[i := Value(c)];
  }

  lemma ValuesAround(x: Tr, i: nat, j: nat, keys: seq<int>, mid: seq<Tr>)
    requires i <= j <= |x.kids|
    ensures Value(Around(x, i, j, keys, mid)) == Node(keys, Value(x).kids[..i] + Values(mid) + Value(x).kids[j..])
  {
    hide Values;
    ValuesCut(x.kids, i);
    ValuesCut(x.kids, j);
    ValuesConcat(x.kids[..i], mid);
    ValuesConcat(x.kids[..i] + mid, x.kids[j..]);
  }

  lemma RepWith(m: Mem, m': Mem, x: Tr, i: nat, c: Tr)
    requires Rep(m, x) && i < |x.kids| && Rep(m', c) && c.n == x.kids[i].n
    requires Agree(m, m', m.Keys - Ids(x.kids[i])) && Drawn(m, Ids(c), Ids(x.kids[i]))
    ensures Rep(m', WithTr(x, i, c)) && Drawn(m, Ids(WithTr(x, i, c)), Ids(x))
  {
    hide Ids, RepAll, IdsAll;
    assert x.kids[i..i + 1] == [x.kids[i]];
    IdsOne(x.kids[i]);
    RepOne(m', c);
    Parts(m, x.kids, i, i + 1);
    assert Tops(WithTr(x, i, c).kids) == Tops(x.kids);
    RepAround(m, m', x, i, i + 1, x.keys, [c]);
  }

  lemma KidRep(m: Mem, x: Tr, i: nat)
    requires Rep(m, x) && i < |x.kids|
    ensures Rep(m, x.kids[i]) && Ids(x.kids[i]) <= Ids(x) && x.n !in Ids(x.kids[i])
    ensures x.n in m && x.kids[i].n in m && i < |m[x.n].kids| && m[x.n].kids[i] == x.kids[i].n != x.n
  {
    Parts(m, x.kids, i, i + 1);
    assert x.kids[i..i + 1] == [x.kids[i]];
    RepOne(m, x.kids[i]);
  }

  lemma TwoKidsApart(m: Mem, x: Tr, i: nat)
    requires Rep(m, x) && i + 1 < |x.kids|
    ensures RepAll(m, [x.kids[i], x.kids[i + 1]]) && x.kids[i..i + 2] == [x.kids[i], x.kids[i + 1]]
    ensures Ids(x.kids[i]) !! Ids(x.kids[i + 1]) && x.kids[i].n != x.kids[i + 1].n
  {
    Parts(m, x.kids, i, i + 2);
    assert x.kids[i..i + 2] == [x.kids[i], x.kids[i + 1]];
    RepTwo(m, x.kids[i], x.kids[i + 1]);
  }

  // ---------- Only the keys of the node change ----------

  function WithKeys(x: Tr, keys: seq<int>): Tr { x.(keys := keys) }

  lemma RepWithKeys(m: Mem, x: Tr, keys: seq<int>)
    requires Rep(m, x)
    ensures Rep(m[x.n := m[x.n].(keys := keys)], WithKeys(x, keys))
    ensures Ids(WithKeys(x, keys)) == Ids(x) && Value(WithKeys(x, keys)) == Node(keys, Value(x).kids)
  {
    RepAllFrame(m, m[x.n := m[x.n].(keys := keys)], x.kids);
  }

  // ---------- A full kid is split ----------

  function Lower(t: int, y: Tr): Tr
    requires t >= 1 && |y.keys| == 2 * t - 1
  {
    Tr(y.n, y.keys[..t - 1], if |y.kids| < t then [] else y.kids[..t])
  }

  function Upper(t: int, y: Tr, z: BNode): Tr
    requires t >= 1 && |y.keys| == 2 * t - 1
  {
    Tr(z, y.keys[t..], if |y.kids| < t then [] else y.kids[t..])
  }

  function SplitTr(t: int, x: Tr, i: nat, z: BNode): Tr
    requires t >= 1 && i < |x.kids| && i <= |x.keys| && |x.kids[i].keys| == 2 * t - 1
  {
    var y := x.kids[i];
    Around(x, i, i + 1, x.keys[..i] + [y.keys[t - 1]] + x.keys[i..], [Lower(t, y), Upper(t, y, z)])
  }

  lemma HalvesValue(t: int, y: Tr, z: BNode)
    requires t >= 1 && |y.keys| == 2 * t - 1
    ensures Value(Lower(t, y)) == LeftHalf(t, Value(y)) && Value(Upper(t, y, z)) == RightHalf(t, Value(y))
  {
    if |y.kids| >= t { ValuesCut(y.kids, t); }
  }

  lemma SplitValue(t: int, x: Tr, i: nat, z: BNode)
    requires t >= 1 && i < |x.kids| && i <= |x.keys| && |x.kids[i].keys| == 2 * t - 1
    ensures Value(x).kids[i] == Value(x.kids[i])
    ensures Value(SplitTr(t, x, i, z)) == Split(t, Value(x), i)
  {
    var y := x.kids[i];
    HalvesValue(t, y, z);
    ValuesAt(x.kids, i);
    ValuesTwo(Lower(t, y), Upper(t, y, z));
    ValuesAround(x, i, i + 1, x.keys[..i] + [y.keys[t - 1]] + x.keys[i..], [Lower(t, y), Upper(t, y, z)]);
  }

  // The two halves in memory.
  lemma HalvesRep(m: Mem, m': Mem, t: int, y: Tr, z: BNode)
    requires t >= 1 && Rep(m, y) && |y.keys| == 2 * t - 1 && z !in m && (y.kids == [] || |y.kids| == 2 * t)
    requires Agree(m, m', IdsAll(y.kids))
    requires y.n in m' && m'[y.n] == ImageOf(Lower(t, y)) && z in m' && m'[z] == ImageOf(Upper(t, y, z))
    ensures RepAll(m', [Lower(t, y), Upper(t, y, z)])
    ensures IdsAll([Lower(t, y), Upper(t, y, z)]) == Ids(y) + {z}
  {
    var l, r := Lower(t, y), Upper(t, y, z);
    RepAllKnown(m, y.kids);
    RepAllFrame(m, m', y.kids);
    assert y.kids == l.kids + r.kids;
    RepConcat(m', l.kids, r.kids);
    IdsConcat(l.kids, r.kids);
    RepTwo(m', l, r);
  }

  // The split as the nodes see it: `x` holds `y` as kid `i`, and `z` is new.
  function SplitMem(m: Mem, t: int, x: BNode, i: nat, y: BNode, z: BNode): Mem
    requires x in m && y in m && Fit(m[x]) && Fit(m[y])
    requires t >= 1 && !m[x].leaf && i <= |m[x].keys| && |m[y].keys| == 2 * t - 1
  {
    m[y := LowerHalf(t, m[y])][z := UpperHalf(t, m[y])][x := SlotOpened(m[x], i, m[y].keys[t - 1], z)]
  }

  lemma SplitImages(t: int, x: Tr, i: nat, z: BNode)
    requires t >= 1 && i < |x.kids| == |x.keys| + 1 && |x.kids[i].keys| == 2 * t - 1 && Fit(ImageOf(x.kids[i]))
    ensures var y := x.kids[i];
      && ImageOf(Lower(t, y)) == LowerHalf(t, ImageOf(y)) && ImageOf(Upper(t, y, z)) == UpperHalf(t, ImageOf(y))
      && ImageOf(SplitTr(t, x, i, z)) == SlotOpened(ImageOf(x), i, y.keys[t - 1], z)
  {
    assert Tops(SplitTr(t, x, i, z).kids) == Tops(x.kids)[..i + 1] + [z] + Tops(x.kids)[i + 1..];
    var y := x.kids[i];
    if y.kids != [] { TopsCut(y.kids, t); }
  }

  lemma SplitRep(m: Mem, t: int, x: Tr, i: nat, z: BNode)
    requires t >= 1 && Rep(m, x) && i < |x.kids| == |x.keys| + 1 && z !in m
    requires |x.kids[i].keys| == 2 * t - 1 && Fit(ImageOf(x.kids[i]))
    ensures x.kids[i].n in m && m[x.kids[i].n] == ImageOf(x.kids[i])
    ensures Rep(SplitMem(m, t, x.n, i, x.kids[i].n, z), SplitTr(t, x, i, z))
    ensures Drawn(m, Ids(SplitTr(t, x, i, z)), Ids(x))
  {
    hide RepAll, IdsAll, Lower, Upper, LowerHalf, UpperHalf, SlotOpened, Tops;
    KidRep(m, x, i);
    var y, m' := x.kids[i], SplitMem(m, t, x.n, i, x.kids[i].n, z);
    SplitImages(t, x, i, z);
    assert y.n !in IdsAll(y.kids) && x.n !in IdsAll(y.kids) && Ids(y) <= m.Keys by { RepKnown(m, y); }
    HalvesRep(m, m', t, y, z);
    assert x.kids[i..i + 1] == [y];
    IdsOne(y);
    RepAround(m, m', x, i, i + 1, x.keys[..i] + [y.keys[t - 1]] + x.keys[i..], [Lower(t, y), Upper(t, y, z)]);
  }

  // ---------- Two neighbours become one ----------

  function Joint(x: Tr, i: nat): Tr
    requires i + 1 < |x.kids| && i < |x.keys|
  {
    var l, r := x.kids[i], x.kids[i + 1];
    Tr(l.n, l.keys + [x.keys[i]] + r.keys, l.kids + r.kids)
  }

  function MergeTr(x: Tr, i: nat): Tr
    requires i + 1 < |x.kids| && i < |x.keys|
  {
    Around(x, i, i + 2, x.keys[..i] + x.keys[i + 1..], [Joint(x, i)])
  }

  lemma MergeValue(x: Tr, i: nat)
    requires i < |x.keys| && |x.kids| == |x.keys| + 1
    ensures Value(MergeTr(x, i)) == Merge(Value(x), i)
  {
    hide Values;
    ValuesAt(x.kids, i);
    ValuesAt(x.kids, i + 1);
    ValuesConcat(x.kids[i].kids, x.kids[i + 1].kids);
    ValuesOne(Joint(x, i));
    ValuesAround(x, i, i + 2, x.keys[..i] + x.keys[i + 1..], [Joint(x, i)]);
  }

  // `l` and `r` are kids `i` and `i + 1` of `x`.
  function MergeMem(m: Mem, x: BNode, i: nat, l: BNode, r: BNode): Mem
    requires x in m && l in m && r in m && Fit(m[x]) && !m[x].leaf && i < |m[x].keys|
  {
    m[l := Absorbed(m[l], m[x].keys[i], m[r])][x := SlotClosed(m[x], i)]
  }

  lemma MergeImages(x: Tr, i: nat)
    requires i < |x.keys| && |x.kids| == |x.keys| + 1 && (x.kids[i].kids == [] <==> x.kids[i + 1].kids == [])
    ensures ImageOf(Joint(x, i)) == Absorbed(ImageOf(x.kids[i]), x.keys[i], ImageOf(x.kids[i + 1]))
    ensures ImageOf(MergeTr(x, i)) == SlotClosed(ImageOf(x), i)
  {
    TopsConcat(x.kids[i].kids, x.kids[i + 1].kids);
    assert Tops(MergeTr(x, i).kids) == Tops(x.kids)[..i + 1] + Tops(x.kids)[i + 2..];
  }

  lemma JointRep(m: Mem, m': Mem, x: Tr, i: nat)
    requires Rep(m, x) && i + 1 < |x.kids| && i < |x.keys|
    requires var l, r := x.kids[i], x.kids[i + 1];
      && Agree(m, m', IdsAll(l.kids) + IdsAll(r.kids))
      && l.n in m' && m'[l.n] == ImageOf(Joint(x, i))
    ensures Rep(m', Joint(x, i)) && Ids(Joint(x, i)) <= Ids(x.kids[i]) + Ids(x.kids[i + 1])
  {
    var l, r := x.kids[i], x.kids[i + 1];
    KidRep(m, x, i);
    KidRep(m, x, i + 1);
    TwoKidsApart(m, x, i);
    RepAllFrame(m, m', l.kids);
    RepAllFrame(m, m', r.kids);
    RepConcat(m', l.kids, r.kids);
    IdsConcat(l.kids, r.kids);
  }

  lemma MergeRep(m: Mem, x: Tr, i: nat)
    requires Rep(m, x) && i < |x.keys| && |x.kids| == |x.keys| + 1
    requires x.kids[i].kids == [] <==> x.kids[i + 1].kids == []
    ensures x.kids[i].n in m && x.kids[i + 1].n in m
    ensures Rep(MergeMem(m, x.n, i, x.kids[i].n, x.kids[i + 1].n), MergeTr(x, i))
    ensures Drawn(m, Ids(MergeTr(x, i)), Ids(x))
    ensures Agree(m, MergeMem(m, x.n, i, x.kids[i].n, x.kids[i + 1].n), m.Keys - Ids(x))
    ensures var y := MergeTr(x, i);
      y.n == x.n && |y.keys| == |x.keys| - 1 && i < |y.kids| && y.kids[i].n == x.kids[i].n
  {
    hide RepAll, IdsAll, Tops, Absorbed, SlotClosed;
    KidRep(m, x, i);
    KidRep(m, x, i + 1);
    var l, r, m' := x.kids[i], x.kids[i + 1], MergeMem(m, x.n, i, x.kids[i].n, x.kids[i + 1].n);
    MergeImages(x, i);
    TwoKidsApart(m, x, i);
    JointRep(m, m', x, i);
    RepTwo(m, l, r);
    RepOne(m', Joint(x, i));
    RepAround(m, m', x, i, i + 2, x.keys[..i] + x.keys[i + 1..], [Joint(x, i)]);
  }

  // ---------- Two neighbours share their keys and kids anew ----------

  function PairTr(x: Tr, i: nat, l: Tr, k: int, r: Tr): Tr
    requires i + 1 < |x.kids| && i < |x.keys|
  {
    Around(x, i, i + 2, x.keys[i := k], [l, r])
  }

  lemma PairValue(x: Tr, i: nat, l: Tr, k: int, r: Tr)
    requires i < |x.keys| && |x.kids| == |x.keys| + 1
    ensures Value(PairTr(x, i, l, k, r)) == WithPair(Value(x), i, Value(l), k, Value(r))
  {
    hide Values;
    ValuesTwo(l, r);
    ValuesAround(x, i, i + 2, x.keys[i := k], [l, r]);
  }

  // The same nodes in the same places, and the same kids below the two.
  predicate Shares(x: Tr, i: nat, l: Tr, r: Tr) {
    && i + 1 < |x.kids| && l.n == x.kids[i].n && r.n == x.kids[i + 1].n
    && l.kids + r.kids == x.kids[i].kids + x.kids[i + 1].kids
  }

  lemma PairImage(x: Tr, i: nat, l: Tr, k: int, r: Tr)
    requires i < |x.keys| && |x.kids| == |x.keys| + 1 && Shares(x, i, l, r)
    ensures ImageOf(PairTr(x, i, l, k, r)) == Image(false, x.keys[i := k], Tops(x.kids))
  {
    assert Tops(PairTr(x, i, l, k, r).kids) == Tops(x.kids);
  }

  function PairMem(m: Mem, x: BNode, i: nat, l: BNode, l': Image, k: int, r: BNode, r': Image): Mem
    requires x in m && i < |m[x].keys|
  {
    m[l := l'][r := r'][x := m[x].(keys := m[x].keys[i := k])]
  }

  // In the order in which the nodes change.
  lemma PairSteps(m: Mem, x: BNode, i: nat, l: BNode, l': Image, k: int, r: BNode, r': Image)
    requires x in m && i < |m[x].keys| && x != l && l != r && x != r
    ensures m[l := l'][x := m[x].(keys := m[x].keys[i := k])][r := r'] == PairMem(m, x, i, l, l', k, r, r')
    ensures m[r := r'][x := m[x].(keys := m[x].keys[i := k])][l := l'] == PairMem(m, x, i, l, l', k, r, r')
  {
  }

  lemma SharedRep(m: Mem, m': Mem, x: Tr, i: nat, l: Tr, r: Tr)
    requires Rep(m, x) && Shares(x, i, l, r)
    requires Agree(m, m', IdsAll(x.kids[i].kids) + IdsAll(x.kids[i + 1].kids))
    requires l.n in m' && m'[l.n] == ImageOf(l) && r.n in m' && m'[r.n] == ImageOf(r)
    ensures RepAll(m', [l, r]) && IdsAll([l, r]) == Ids(x.kids[i]) + Ids(x.kids[i + 1])
  {
    var l0, r0 := x.kids[i], x.kids[i + 1];
    KidRep(m, x, i);
    KidRep(m, x, i + 1);
    TwoKidsApart(m, x, i);
    RepAllFrame(m, m', l0.kids);
    RepAllFrame(m, m', r0.kids);
    RepConcat(m', l0.kids, r0.kids);
    IdsConcat(l0.kids, r0.kids);
    RepConcat(m', l.kids, r.kids);
    IdsConcat(l.kids, r.kids);
    RepTwo(m', l, r);
  }

  lemma PairRep(m: Mem, x: Tr, i: nat, l: Tr, k: int, r: Tr)
    requires Rep(m, x) && i < |x.keys| && |x.kids| == |x.keys| + 1 && Shares(x, i, l, r)
    ensures Rep(PairMem(m, x.n, i, l.n, ImageOf(l), k, r.n, ImageOf(r)), PairTr(x, i, l, k, r))
    ensures Drawn(m, Ids(PairTr(x, i, l, k, r)), Ids(x))
    ensures Agree(m, PairMem(m, x.n, i, l.n, ImageOf(l), k, r.n, ImageOf(r)), m.Keys - Ids(x))
  {
    hide RepAll, IdsAll, Tops;
    var m' := PairMem(m, x.n, i, l.n, ImageOf(l), k, r.n, ImageOf(r));
    KidRep(m, x, i);
    KidRep(m, x, i + 1);
    PairImage(x, i, l, k, r);
    TwoKidsApart(m, x, i);
    SharedRep(m, m', x, i, l, r);
    RepTwo(m, x.kids[i], x.kids[i + 1]);
    RepAround(m, m', x, i, i + 2, x.keys[i := k], [l, r]);
  }

  // ---------- Borrowing ----------

  function Pushed(child: Tr, k: int, right: Tr): Tr {
    Tr(child.n, child.keys + [k], child.kids + if right.kids == [] then [] else [right.kids[0]])
  }

  function Popped(right: Tr): Tr
    requires right.keys != []
  {
    Tr(right.n, right.keys[1..], if right.kids == [] then [] else right.kids[1..])
  }

  function PushedFront(left: Tr, k: int, child: Tr): Tr {
    Tr(child.n, [k] + child.keys, (if left.kids == [] then [] else [left.kids[|left.kids| - 1]]) + child.kids)
  }

  function PoppedLast(left: Tr): Tr
    requires left.keys != []
  {
    Tr(left.n, left.keys[..|left.keys| - 1], if left.kids == [] then [] else left.kids[..|left.kids| - 1])
  }

  function BorrowRightTr(x: Tr, i: nat): Tr
    requires i < |x.keys| && i + 1 < |x.kids| && x.kids[i + 1].keys != []
  {
    var child, right := x.kids[i], x.kids[i + 1];
    PairTr(x, i, Pushed(child, x.keys[i], right), right.keys[0], Popped(right))
  }

  function BorrowLeftTr(x: Tr, i: nat): Tr
    requires 0 < i <= |x.keys| && i < |x.kids| && x.kids[i - 1].keys != []
  {
    var left, child := x.kids[i - 1], x.kids[i];
    PairTr(x, i - 1, PoppedLast(left), left.keys[|left.keys| - 1], PushedFront(left, x.keys[i - 1], child))
  }

  lemma PushedValue(child: Tr, k: int, right: Tr)
    ensures Value(Pushed(child, k, right)) == PushBack(Value(child), k, Value(right))
  {
    if right.kids != [] {
      ValuesConcat(child.kids, [right.kids[0]]);
      ValuesOne(right.kids[0]);
    } else {
      assert child.kids + [] == child.kids;
    }
  }

  lemma PushedFrontValue(left: Tr, k: int, child: Tr)
    ensures Value(PushedFront(left, k, child)) == PushFront(Value(left), k, Value(child))
  {
    if left.kids != [] {
      var n := |left.kids| - 1;
      ValuesConcat([left.kids[n]], child.kids);
      ValuesOne(left.kids[n]);
      ValuesAt(left.kids, n);
    } else {
      assert [] + child.kids == child.kids;
    }
  }

  lemma PoppedLastValue(left: Tr)
    requires left.keys != []
    ensures Value(PoppedLast(left)) == PopLast(Value(left))
  {
    if left.kids != [] { ValuesCut(left.kids, |left.kids| - 1); }
  }

  lemma BorrowRightValue(x: Tr, i: nat)
    requires i < |x.keys| && |x.kids| == |x.keys| + 1 && x.kids[i + 1].keys != []
    ensures Value(x).kids[i + 1] == Value(x.kids[i + 1])
    ensures Value(BorrowRightTr(x, i)) == BorrowRight(Value(x), i)
    ensures var y := BorrowRightTr(x, i); y.n == x.n && y.keys != [] && i < |y.kids| && y.kids[i].n == x.kids[i].n
    ensures Shares(x, i, Pushed(x.kids[i], x.keys[i], x.kids[i + 1]), Popped(x.kids[i + 1]))
  {
    hide Values, PushBack;
    var child, right := x.kids[i], x.kids[i + 1];
    ValuesAt(x.kids, i);
    ValuesAt(x.kids, i + 1);
    PushedValue(child, x.keys[i], right);
    PoppedValue(right);
    PairValue(x, i, Pushed(child, x.keys[i], right), right.keys[0], Popped(right));
    RightShares(x, i);
  }

  lemma PoppedValue(right: Tr)
    requires right.keys != []
    ensures Value(Popped(right)) == PopFirst(Value(right))
  {
  }

  lemma RightShares(x: Tr, i: nat)
    requires i < |x.keys| && i + 1 < |x.kids| && x.kids[i + 1].keys != []
    ensures Shares(x, i, Pushed(x.kids[i], x.keys[i], x.kids[i + 1]), Popped(x.kids[i + 1]))
  {
    var child, right := x.kids[i], x.kids[i + 1];
    if right.kids != [] {
      assert right.kids == [right.kids[0]] + right.kids[1..];
      assert child.kids + [right.kids[0]] + right.kids[1..] == child.kids + right.kids;
    }
  }

  lemma BorrowLeftValue(x: Tr, i: nat)
    requires 0 < i <= |x.keys| && |x.kids| == |x.keys| + 1 && x.kids[i - 1].keys != []
    ensures Value(x).kids[i - 1] == Value(x.kids[i - 1])
    ensures Value(BorrowLeftTr(x, i)) == BorrowLeft(Value(x), i)
    ensures var y := BorrowLeftTr(x, i); y.n == x.n && y.keys != [] && i < |y.kids| && y.kids[i].n == x.kids[i].n
    ensures Shares(x, i - 1, PoppedLast(x.kids[i - 1]), PushedFront(x.kids[i - 1], x.keys[i - 1], x.kids[i]))
  {
    hide Values, PushFront;
    var left, child := x.kids[i - 1], x.kids[i];
    ValuesAt(x.kids, i - 1);
    ValuesAt(x.kids, i);
    PushedFrontValue(left, x.keys[i - 1], child);
    PoppedLastValue(left);
    PairValue(x, i - 1, PoppedLast(left), left.keys[|left.keys| - 1], PushedFront(left, x.keys[i - 1], child));
    LeftShares(x, i);
  }

  lemma LeftShares(x: Tr, i: nat)
    requires 0 < i <= |x.keys| && i < |x.kids| && x.kids[i - 1].keys != []
    ensures Shares(x, i - 1, PoppedLast(x.kids[i - 1]), PushedFront(x.kids[i - 1], x.keys[i - 1], x.kids[i]))
  {
    var left, child := x.kids[i - 1], x.kids[i];
    if left.kids != [] {
      var n := |left.kids| - 1;
      assert left.kids == left.kids[..n] + [left.kids[n]];
      assert left.kids[..n] + ([left.kids[n]] + child.kids) == left.kids + child.kids;
    }
  }

  // What the nodes hold once a kid has moved over.
  lemma RightImages(x: Tr, i: nat)
    requires i < |x.keys| && |x.kids| == |x.keys| + 1 && x.kids[i + 1].keys != [] && Fit(ImageOf(x.kids[i + 1]))
    requires x.kids[i].kids == [] <==> x.kids[i + 1].kids == []
    ensures var child, right := x.kids[i], x.kids[i + 1];
      && ImageOf(Pushed(child, x.keys[i], right))
         == AtBack(ImageOf(child), x.keys[i], if right.kids == [] then null else right.kids[0].n)
      && ImageOf(Popped(right)) == WithoutFirst(ImageOf(right))
  {
    var child, right := x.kids[i], x.kids[i + 1];
    if right.kids != [] {
      assert Tops(child.kids + [right.kids[0]]) == Tops(child.kids) + [right.kids[0].n];
      TopsCut(right.kids, 1);
    }
  }

  lemma LeftImages(x: Tr, i: nat)
    requires 0 < i <= |x.keys| && |x.kids| == |x.keys| + 1 && x.kids[i - 1].keys != [] && Fit(ImageOf(x.kids[i - 1]))
    requires x.kids[i - 1].kids == [] <==> x.kids[i].kids == []
    ensures var left, child := x.kids[i - 1], x.kids[i];
      && ImageOf(PushedFront(left, x.keys[i - 1], child))
         == AtFront(ImageOf(child), x.keys[i - 1], if left.kids == [] then null else left.kids[|left.kids| - 1].n)
      && ImageOf(PoppedLast(left)) == WithoutLast(ImageOf(left))
  {
    var left, child := x.kids[i - 1], x.kids[i];
    if left.kids != [] {
      var last := left.kids[|left.kids| - 1];
      assert Tops([last] + child.kids) == [last.n] + Tops(child.kids);
      TopsCut(left.kids, |left.kids| - 1);
    }
  }

  function FirstKid(r: Image): BNode? {
    if r.kids == [] then null else r.kids[0]
  }

  function LastKid(r: Image): BNode? {
    if r.kids == [] then null else r.kids[|r.kids| - 1]
  }

  function RightMem(m: Mem, x: BNode, i: nat, child: BNode, right: BNode): Mem
    requires x in m && child in m && right in m && i < |m[x].keys| && Fit(m[right]) && m[right].keys != []
  {
    PairMem(m, x, i, child, AtBack(m[child], m[x].keys[i], FirstKid(m[right])),
            m[right].keys[0], right, WithoutFirst(m[right]))
  }

  function LeftMem(m: Mem, x: BNode, i: nat, left: BNode, child: BNode): Mem
    requires x in m && child in m && left in m && 0 < i <= |m[x].keys| && Fit(m[left]) && m[left].keys != []
  {
    PairMem(m, x, i - 1, left, WithoutLast(m[left]), m[left].keys[|m[left].keys| - 1],
            child, AtFront(m[child], m[x].keys[i - 1], LastKid(m[left])))
  }

  // In the order in which the nodes change.
  lemma LeftSteps(m: Mem, x: BNode, i: nat, left: BNode, child: BNode, k: int, last: int, c: BNode?)
    requires x in m && child in m && left in m && 0 < i <= |m[x].keys| && Fit(m[left]) && m[left].keys != []
    requires x != child && x != left && child != left
    requires k == m[x].keys[i - 1] && last == m[left].keys[|m[left].keys| - 1] && c == LastKid(m[left])
    ensures m[child := AtFront(m[child], k, c)][x := m[x].(keys := m[x].keys[i - 1 := last])][left := WithoutLast(m[left])]
      == LeftMem(m, x, i, left, child)
  {
    PairSteps(m, x, i - 1, left, WithoutLast(m[left]), last, child, AtFront(m[child], k, c));
  }

  lemma BorrowRightRep(m: Mem, x: Tr, i: nat)
    requires Rep(m, x) && i < |x.keys| && |x.kids| == |x.keys| + 1
    requires Fit(ImageOf(x.kids[i + 1])) && x.kids[i + 1].keys != [] && (x.kids[i].kids == [] <==> x.kids[i + 1].kids == [])
    ensures x.kids[i].n in m && x.kids[i + 1].n in m && m[x.kids[i + 1].n] == ImageOf(x.kids[i + 1])
    ensures var m' := RightMem(m, x.n, i, x.kids[i].n, x.kids[i + 1].n);
      Rep(m', BorrowRightTr(x, i)) && Agree(m, m', m.Keys - Ids(x)) && Drawn(m, Ids(BorrowRightTr(x, i)), Ids(x))
  {
    hide RepAll, IdsAll, PairMem, PairTr, AtBack, WithoutFirst, Pushed, Popped;
    KidRep(m, x, i);
    KidRep(m, x, i + 1);
    RightImages(x, i);
    BorrowRightValue(x, i);
    PairRep(m, x, i, Pushed(x.kids[i], x.keys[i], x.kids[i + 1]), x.kids[i + 1].keys[0], Popped(x.kids[i + 1]));
  }

  lemma BorrowLeftRep(m: Mem, x: Tr, i: nat)
    requires Rep(m, x) && 0 < i <= |x.keys| && |x.kids| == |x.keys| + 1
    requires Fit(ImageOf(x.kids[i - 1])) && x.kids[i - 1].keys != [] && (x.kids[i - 1].kids == [] <==> x.kids[i].kids == [])
    ensures x.kids[i].n in m && x.kids[i - 1].n in m && m[x.kids[i - 1].n] == ImageOf(x.kids[i - 1])
    ensures var m' := LeftMem(m, x.n, i, x.kids[i - 1].n, x.kids[i].n);
      Rep(m', BorrowLeftTr(x, i)) && Agree(m, m', m.Keys - Ids(x)) && Drawn(m, Ids(BorrowLeftTr(x, i)), Ids(x))
  {
    hide RepAll, IdsAll, PairMem, PairTr, AtFront, WithoutLast, PushedFront, PoppedLast;
    var l, c := x.kids[i - 1], x.kids[i];
    KidRep(m, x, i - 1);
    KidRep(m, x, i);
    LeftImages(x, i);
    BorrowLeftValue(x, i);
    PairRep(m, x, i - 1, PoppedLast(l), l.keys[|l.keys| - 1], PushedFront(l, x.keys[i - 1], c));
  }

  // ---------- Changes one after the other ----------

  lemma NothingMoved(m: Mem, a: set<BNode>)
    ensures Agree(m, m, m.Keys - a) && Drawn(m, a, a)
  {
  }

  lemma DrawnTwice(m0: Mem, m1: Mem, a: set<BNode>, b: set<BNode>, c: set<BNode>)
    requires Drawn(m0, b, a) && Drawn(m1, c, b) && m0.Keys <= m1.Keys
    ensures Drawn(m0, c, a)
  {
  }

  lemma AgreeTwice(m0: Mem, m1: Mem, m2: Mem, a: set<BNode>, b: set<BNode>)
    requires Agree(m0, m1, m0.Keys - a) && Agree(m1, m2, m1.Keys - b) && Drawn(m0, b, a)
    ensures Agree(m0, m2, m0.Keys - a)
  {
  }
}
