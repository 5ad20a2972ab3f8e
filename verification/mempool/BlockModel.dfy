// The blocks of one page and who has them: the free ones as a stack, the held ones as a set.

module BlockModel {

  const PageSize: nat := 0x1000     // MEM_PAGE_SIZE
  const PointerSize: nat := 8       // sizeof(char*)
  const AddressSpace: nat := 0x1_0000_0000_0000_0000

  newtype Byte = x: int | 0 <= x < 256

  // ---------- Pointers kept in memory ----------

  function Power(n: nat): nat { if n == 0 then 1 else 256 * Power(n - 1) }

  // The `n` low bytes of `x`, lowest first.
  function Bytes(x: nat, n: nat): (s: seq<Byte>)
    ensures |s| == n
  {
    if n == 0 then [] else [(x % 256) as Byte] + Bytes(x / 256, n - 1)
  }

  function Value(s: seq<Byte>): nat {
    if s == [] then 0 else s[0] as nat + 256 * Value(s[1..])
  }

  lemma {:induction false} StoredThenLoaded(x: nat, n: nat)
    requires x < Power(n)
    ensures Value(Bytes(x, n)) == x
  {
    if n > 0 {
      StoredThenLoaded(x / 256, n - 1);
      assert Bytes(x, n)[1..] == Bytes(x / 256, n - 1);
    }
  }

  lemma AddressFits(x: nat)
    requires x < AddressSpace
    ensures Value(Bytes(x, PointerSize)) == x
  {
    assert Power(4) == 0x1_0000_0000;
    assert Power(8) == AddressSpace;
    StoredThenLoaded(x, PointerSize);
  }

  // ---------- Blocks of a page ----------

  function Count(size: nat): nat
    requires size > 0
  {
    PageSize / size
  }

  function Offset(size: nat, b: nat): nat { b * size }

  lemma BlockInPage(size: nat, b: nat)
    requires size > 0 && b < Count(size)
    ensures Offset(size, b) + size <= PageSize
  {
    assert (b + 1) * size <= Count(size) * size;
  }

  lemma EndInPage(size: nat, b: nat)
    requires size > 0 && b <= Count(size)
    ensures Offset(size, b) <= PageSize
  {
    assert b * size <= Count(size) * size;
  }

  lemma BlocksApart(size: nat, b: nat, b': nat)
    requires b < b'
    ensures Offset(size, b) + size <= Offset(size, b')
  {
    assert (b + 1) * size <= b' * size;
  }

  predicate Disjoint(size: nat, b: nat, b': nat) {
    Offset(size, b) + size <= Offset(size, b') || Offset(size, b') + size <= Offset(size, b)
  }

  lemma DifferentAreDisjoint(size: nat, b: nat, b': nat)
    requires b != b'
    ensures Disjoint(size, b, b')
  {
    if b < b' { BlocksApart(size, b, b'); } else { BlocksApart(size, b', b); }
  }

  // ---------- Who has which block ----------

  // `free` in list order; `written` the bytes that clients wrote into the blocks they hold.
  datatype Blocks = Blocks(free: seq<nat>, live: set<nat>, written: map<nat, Byte>)

  datatype Op =
    | Malloc(size: nat)
    | Free(block: nat)
    | Write(block: nat, at: nat, value: Byte)

  // A client frees and writes only what it holds.
  predicate Allowed(s: Blocks, size: nat, op: Op) {
    match op
    case Malloc(_) => true
    case Free(b) => b in s.live
    case Write(b, at, _) => b in s.live && at < size
  }

  predicate Inside(size: nat, b: nat, k: nat) {
    Offset(size, b) <= k < Offset(size, b) + size
  }

  function After(s: Blocks, size: nat, op: Op): Blocks {
    match op
    case Malloc(wanted) =>
      if s.free == [] || size < wanted then s
      else s.(free := s.free[1..], live := s.live + {s.free[0]})
    case Free(b) =>
      Blocks([b] + s.free, s.live - {b}, map k | k in s.written && !Inside(size, b, k) :: s.written[k])
    case Write(b, at, value) => s.(written := s.written[Offset(size, b) + at := value])
  }

  function Start(n: nat): Blocks {
    Blocks(seq(n, i => i), {}, map[])
  }

  ghost predicate Distinct(s: seq<nat>) {
    forall i, j :: 0 <= i < j < |s| ==> s[i] != s[j]
  }

  // Every block of the page is free exactly once or held, and no other block is.
  ghost predicate Partition(s: Blocks, n: nat) {
    && Distinct(s.free)
    && (forall b :: b in s.free ==> b !in s.live)
    && (forall b: nat :: b in s.free || b in s.live <==> b < n)
    && |s.free| + |s.live| == n
  }

  // What clients wrote lies in held blocks.
  ghost predicate WritesHeld(s: Blocks, size: nat) {
    forall k :: k in s.written ==> exists b :: b in s.live && Inside(size, b, k)
  }

  lemma StartPartition(n: nat)
    ensures Partition(Start(n), n)
  {
    var s := Start(n);
    forall b: nat ensures b in s.free <==> b < n {
      if b < n { assert s.free[b] == b; }
    }
  }

  lemma StartCount(n: nat, size: nat)
    ensures |Start(n).free| == n && Offset(size, 0) == 0
  {
  }

  // Behind the last block there is none that could be free.
  lemma EndNotFree(size: nat)
    requires size > 0
    ensures Count(size) !in Start(Count(size)).free
  {
  }

  // The terminator fits in the page exactly when the blocks leave eight bytes over.
  lemma TerminatorFits(size: nat)
    requires PointerSize <= size <= PageSize
    ensures Offset(size, Count(size)) + PointerSize <= PageSize <==> PageSize % size >= PointerSize
    ensures PageSize % size == 0 ==> Offset(size, Count(size)) == PageSize
  {
    assert Count(size) * size + PageSize % size == PageSize;
  }

  // The first free block becomes a held one.
  lemma HandedOut(s: Blocks, n: nat)
    requires Partition(s, n) && s.free != []
    ensures Partition(s.(free := s.free[1..], live := s.live + {s.free[0]}), n)
  {
    assert s.free == [s.free[0]] + s.free[1..];
  }

  // A held block becomes the first free one.
  lemma GivenBack(s: Blocks, n: nat, b: nat, written: map<nat, Byte>)
    requires Partition(s, n) && b in s.live
    ensures Partition(Blocks([b] + s.free, s.live - {b}, written), n)
  {
  }

  lemma PartitionKept(s: Blocks, n: nat, size: nat, op: Op)
    requires Partition(s, n) && Allowed(s, size, op)
    ensures Partition(After(s, size, op), n)
  {
    match op
    case Malloc(wanted) => if s.free != [] { HandedOut(s, n); }
    case Free(b) => GivenBack(s, n, b, After(s, size, op).written);
    case Write(_, _, _) =>
  }

  lemma WritesHeldKept(s: Blocks, size: nat, op: Op)
    requires WritesHeld(s, size) && Allowed(s, size, op)
    ensures WritesHeld(After(s, size, op), size)
  {
    var s' := After(s, size, op);
    forall k | k in s'.written ensures exists b :: b in s'.live && Inside(size, b, k) {
      if op.Write? && k == Offset(size, op.block) + op.at {
        assert Inside(size, op.block, k);
      } else {
        assert k in s.written;
        var b :| b in s.live && Inside(size, b, k);
        assert b in s'.live;
      }
    }
  }

  // ---------- Histories ----------

  predicate AllAllowed(s: Blocks, size: nat, ops: seq<Op>)
    decreases |ops|
  {
    ops == [] || (Allowed(s, size, ops[0]) && AllAllowed(After(s, size, ops[0]), size, ops[1..]))
  }

  function Final(s: Blocks, size: nat, ops: seq<Op>): Blocks
    decreases |ops|
  {
    if ops == [] then s else Final(After(s, size, ops[0]), size, ops[1..])
  }

  lemma {:induction false} HistoryKeeps(s: Blocks, n: nat, size: nat, ops: seq<Op>)
    requires Partition(s, n) && WritesHeld(s, size) && AllAllowed(s, size, ops)
    ensures Partition(Final(s, size, ops), n) && WritesHeld(Final(s, size, ops), size)
    decreases |ops|
  {
    hide Partition, WritesHeld;
    if ops != [] {
      PartitionKept(s, n, size, ops[0]);
      WritesHeldKept(s, size, ops[0]);
      HistoryKeeps(After(s, size, ops[0]), n, size, ops[1..]);
    }
  }

  // After any mallocs, valid frees and writes: held blocks are pairwise disjoint and inside the
  // page, free and held blocks add up to those of the page, and no block is in both.
  lemma HistorySafe(size: nat, ops: seq<Op>)
    requires PointerSize <= size <= PageSize && AllAllowed(Start(Count(size)), size, ops)
    ensures var s := Final(Start(Count(size)), size, ops);
      && |s.free| + |s.live| == Count(size) && Distinct(s.free)
      && (forall b :: b in s.live ==> b !in s.free && Offset(size, b) + size <= PageSize)
      && (forall b, b' :: b in s.live && b' in s.live && b != b' ==> Disjoint(size, b, b'))
      && (forall k :: k in s.written ==> exists b :: b in s.live && Inside(size, b, k))
  {
    hide Offset;
    StartPartition(Count(size));
    HistoryKeeps(Start(Count(size)), Count(size), size, ops);
    var s := Final(Start(Count(size)), size, ops);
    forall b | b in s.live ensures Offset(size, b) + size <= PageSize {
      BlockInPage(size, b);
    }
    forall b, b' | b in s.live && b' in s.live && b != b' ensures Disjoint(size, b, b') {
      DifferentAreDisjoint(size, b, b');
    }
  }

  // A block that is given back is the next one handed out.
  lemma GivenBackFirst(s: Blocks, size: nat, b: nat, wanted: nat)
    requires b in s.live && b !in s.free && wanted <= size
    ensures var s' := After(After(s, size, Op.Free(b)), size, Op.Malloc(wanted));
      s'.live == s.live && s'.free == s.free
  {
  }

  // ---------- What a client finds in its block ----------

  datatype Option<T> = None | Some(value: T)

  // The last value written at `at` in block `b`, unless the block was given back since. Only the
  // calls are looked at.
  function LastWrite(ops: seq<Op>, b: nat, at: nat): Option<Byte> {
    if ops == [] then None
    else
      var before, op := ops[..|ops| - 1], ops[|ops| - 1];
      match op
      case Write(b', at', value) => if b' == b && at' == at then Some(value) else LastWrite(before, b, at)
      case Free(b') => if b' == b then None else LastWrite(before, b, at)
      case Malloc(_) => LastWrite(before, b, at)
  }

  lemma LastWriteDef(ops: seq<Op>, op: Op, b: nat, at: nat)
    ensures LastWrite(ops + [op], b, at) ==
      match op
      case Write(b', at', value) => if b' == b && at' == at then Some(value) else LastWrite(ops, b, at)
      case Free(b') => if b' == b then None else LastWrite(ops, b, at)
      case Malloc(_) => LastWrite(ops, b, at)
  {
    assert (ops + [op])[..|ops|] == ops;
  }

  // The books know the last write to every byte, and its block is held.
  ghost predicate Remembers(s: Blocks, size: nat, ops: seq<Op>) {
    forall b: nat, at: nat :: at < size && LastWrite(ops, b, at).Some? ==> Knows(s, size, b, at, LastWrite(ops, b, at).value)
  }

  ghost predicate Knows(s: Blocks, size: nat, b: nat, at: nat, value: Byte) {
    && b in s.live && Offset(size, b) + at in s.written && s.written[Offset(size, b) + at] == value
  }

  lemma KnowsKept(s: Blocks, size: nat, op: Op, b: nat, at: nat, value: Byte)
    requires Knows(s, size, b, at, value) && at < size && Allowed(s, size, op)
    requires op.Write? ==> !(op.block == b && op.at == at)
    requires op.Free? ==> op.block != b
    ensures Knows(After(s, size, op), size, b, at, value)
  {
    if op.Write? && op.block != b { DifferentAreDisjoint(size, op.block, b); }
    if op.Free? { DifferentAreDisjoint(size, op.block, b); }
  }

  lemma RemembersKept(s: Blocks, size: nat, ops: seq<Op>, op: Op)
    requires Remembers(s, size, ops) && Allowed(s, size, op)
    ensures Remembers(After(s, size, op), size, ops + [op])
  {
    hide LastWrite, Knows, After;
    var s' := After(s, size, op);
    forall b: nat, at: nat | at < size && LastWrite(ops + [op], b, at).Some?
      ensures Knows(s', size, b, at, LastWrite(ops + [op], b, at).value)
    {
      LastWriteDef(ops, op, b, at);
      if op.Write? && op.block == b && op.at == at {
        KnowsNew(s, size, b, at, op.value);
      } else {
        KnowsKept(s, size, op, b, at, LastWrite(ops, b, at).value);
      }
    }
  }

  lemma NothingToRemember(s: Blocks, size: nat)
    ensures Remembers(s, size, [])
  {
  }

  lemma KnowsNew(s: Blocks, size: nat, b: nat, at: nat, value: Byte)
    requires b in s.live
    ensures Knows(After(s, size, Op.Write(b, at, value)), size, b, at, value)
  {
  }

  // ---------- The free list inside the page ----------

  // The pointer stored at `at`.
  function Load(page: seq<Byte>, at: nat): nat
    requires at + PointerSize <= |page|
  {
    Value(page[at..at + PointerSize])
  }

  ghost predicate SameOutside(page: seq<Byte>, page': seq<Byte>, at: nat, n: nat) {
    |page| == |page'| && forall k :: 0 <= k < |page| && !(at <= k < at + n) ==> page[k] == page'[k]
  }

  lemma LoadKept(page: seq<Byte>, page': seq<Byte>, at: nat, n: nat, from: nat)
    requires SameOutside(page, page', at, n) && from + PointerSize <= |page|
    requires from + PointerSize <= at || at + n <= from
    ensures Load(page', from) == Load(page, from)
  {
    assert page'[from..from + PointerSize] == page[from..from + PointerSize];
  }

  function AddrOf(mem: nat, size: nat, b: nat): nat { mem + Offset(size, b) }

  // The block at position `i` of a free list; past the last one, the end of the blocks.
  function FreeAt(size: nat, free: seq<nat>, i: nat): nat
    requires size > 0
  {
    if i < |free| then free[i] else Count(size)
  }

  ghost predicate LinksTo(page: seq<Byte>, mem: nat, size: nat, b: nat, next: nat) {
    Offset(size, b) + PointerSize <= |page| && Load(page, Offset(size, b)) == AddrOf(mem, size, next)
  }

  ghost predicate LinksNext(page: seq<Byte>, mem: nat, size: nat, b: nat) {
    LinksTo(page, mem, size, b, b + 1)
  }

  // Each free block begins with the address of the next one.
  ghost predicate Linked(page: seq<Byte>, mem: nat, size: nat, free: seq<nat>)
    requires size > 0
  {
    forall i :: 0 <= i < |free| ==> LinksTo(page, mem, size, free[i], FreeAt(size, free, i + 1))
  }

  lemma LinkKept(page: seq<Byte>, page': seq<Byte>, mem: nat, size: nat, x: nat, at: nat, n: nat, b: nat, next: nat)
    requires LinksTo(page, mem, size, b, next) && b != x && PointerSize <= size
    requires SameOutside(page, page', Offset(size, x) + at, n) && at + n <= size
    ensures LinksTo(page', mem, size, b, next)
  {
    DifferentAreDisjoint(size, b, x);
    LoadKept(page, page', Offset(size, x) + at, n, Offset(size, b));
  }

  lemma IsLinkNext(page: seq<Byte>, mem: nat, size: nat, b: nat)
    requires Offset(size, b) + PointerSize <= |page|
    requires Load(page, Offset(size, b)) == AddrOf(mem, size, b) + size
    ensures LinksNext(page, mem, size, b) && AddrOf(mem, size, b + 1) == AddrOf(mem, size, b) + size
  {
  }

  // One more block linked to the one after it.
  lemma LinksNextMore(page: seq<Byte>, page': seq<Byte>, mem: nat, size: nat, i: nat)
    requires PointerSize <= size && forall b: nat :: b < i ==> LinksNext(page, mem, size, b)
    requires SameOutside(page, page', Offset(size, i), PointerSize) && LinksNext(page', mem, size, i)
    ensures forall b: nat :: b < i + 1 ==> LinksNext(page', mem, size, b)
  {
    hide LinksTo, SameOutside;
    forall b: nat | b < i ensures LinksNext(page', mem, size, b) {
      assert LinksNext(page, mem, size, b);
      LinkKept(page, page', mem, size, i, 0, PointerSize, b, b + 1);
    }
  }

  lemma LinkedFromStart(page: seq<Byte>, mem: nat, size: nat)
    requires size > 0 && forall b: nat :: b < Count(size) ==> LinksNext(page, mem, size, b)
    ensures Linked(page, mem, size, Start(Count(size)).free)
  {
    hide LinksTo;
    var free := Start(Count(size)).free;
    forall i | 0 <= i < |free| ensures LinksTo(page, mem, size, free[i], FreeAt(size, free, i + 1)) {
      assert free[i] == i && FreeAt(size, free, i + 1) == i + 1 && LinksNext(page, mem, size, i);
    }
  }

  // A change inside a block that is not free keeps the list.
  lemma LinkedKept(page: seq<Byte>, page': seq<Byte>, mem: nat, size: nat, x: nat, at: nat, n: nat, free: seq<nat>)
    requires PointerSize <= size && Linked(page, mem, size, free) && x !in free
    requires SameOutside(page, page', Offset(size, x) + at, n) && at + n <= size
    ensures Linked(page', mem, size, free)
  {
    hide LinksTo, SameOutside;
    forall i | 0 <= i < |free| ensures LinksTo(page', mem, size, free[i], FreeAt(size, free, i + 1)) {
      LinkKept(page, page', mem, size, x, at, n, free[i], FreeAt(size, free, i + 1));
    }
  }

  lemma LinkedPush(page: seq<Byte>, mem: nat, size: nat, b: nat, free: seq<nat>)
    requires size > 0 && Linked(page, mem, size, free)
    requires LinksTo(page, mem, size, b, FreeAt(size, free, 0))
    ensures Linked(page, mem, size, [b] + free)
  {
    hide LinksTo;
    var more := [b] + free;
    forall i | 0 <= i < |more| ensures LinksTo(page, mem, size, more[i], FreeAt(size, more, i + 1)) {
      assert FreeAt(size, more, i + 1) == FreeAt(size, free, i);
    }
  }

  lemma LinkedPop(page: seq<Byte>, mem: nat, size: nat, free: seq<nat>)
    requires size > 0 && Linked(page, mem, size, free) && free != []
    ensures LinksTo(page, mem, size, free[0], FreeAt(size, free[1..], 0))
    ensures Linked(page, mem, size, free[1..])
  {
    hide LinksTo;
    var rest := free[1..];
    forall i | 0 <= i < |rest| ensures LinksTo(page, mem, size, rest[i], FreeAt(size, rest, i + 1)) {
      assert rest[i] == free[i + 1] && FreeAt(size, rest, i + 1) == FreeAt(size, free, i + 2);
    }
    assert FreeAt(size, rest, 0) == FreeAt(size, free, 1);
  }

  // Clients find in the blocks they hold what they wrote there.
  ghost predicate Undisturbed(page: seq<Byte>, s: Blocks, size: nat) {
    forall k :: k in s.written ==> k < |page| && page[k] == s.written[k]
  }

  // The allocator writes only into the block given back.
  lemma FreeUndisturbed(page: seq<Byte>, page': seq<Byte>, s: Blocks, size: nat, b: nat)
    requires Undisturbed(page, s, size) && PointerSize <= size
    requires SameOutside(page, page', Offset(size, b), PointerSize)
    ensures Undisturbed(page', After(s, size, Op.Free(b)), size)
  {
  }

  lemma WriteUndisturbed(page: seq<Byte>, s: Blocks, size: nat, b: nat, at: nat, value: Byte)
    requires Undisturbed(page, s, size) && Offset(size, b) + at < |page|
    ensures Undisturbed(page[Offset(size, b) + at := value], After(s, size, Op.Write(b, at, value)), size)
    ensures SameOutside(page, page[Offset(size, b) + at := value], Offset(size, b) + at, 1)
  {
  }
}
