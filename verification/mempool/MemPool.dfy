// The fixed-block allocator: its free list is threaded through the bytes of the free blocks.

module MemPools {
  import opened BlockModel

  type Addr = nat      // 0 is NULL

  class MemPool {
    var blockSize: nat
    var freeCount: nat
    var mem: Addr              // where the page starts
    var ptr: Addr              // the first free block
    const page: array<Byte>
    ghost var blocks: Blocks

    ghost predicate Shape()
      reads this
    {
      && PointerSize <= blockSize <= PageSize == page.Length
      && 0 < mem && mem + PageSize < AddressSpace
      && freeCount == |blocks.free|
      && ptr == AddrOf(mem, blockSize, FreeAt(blockSize, blocks.free, 0))
    }

    ghost predicate Valid()
      reads this, page
    {
      && Shape()
      && Partition(blocks, Count(blockSize))
      && Linked(page[..], mem, blockSize, blocks.free)
      && WritesHeld(blocks, blockSize) && Undisturbed(page[..], blocks, blockSize)
    }

    // *(char**)(mem + at) = target
    method Store(at: nat, target: Addr)
      requires at + PointerSize <= page.Length && target < AddressSpace
      modifies page
      ensures Load(page[..], at) == target && SameOutside(old(page[..]), page[..], at, PointerSize)
    {
      var bytes := Bytes(target, PointerSize);
      forall i | 0 <= i < PointerSize { page[at + i] := bytes[i]; }
      assert page[..][at..at + PointerSize] == bytes;
      AddressFits(target);
    }

    // memp_init on a page that malloc placed at `base`, whatever bytes it holds.
    constructor (size: nat, base: Addr)
      requires PointerSize <= size <= PageSize && 0 < base && base + PageSize < AddressSpace
      ensures Valid() && fresh(page) && mem == base && blockSize == size
      ensures blocks == Start(Count(size))
    {
      blockSize, freeCount, mem, ptr := size, Count(size), base, base;
      page := new Byte[PageSize];
      blocks := Start(Count(size));
      new;
      LinkBlocks();
      StartPartition(Count(size));
    }

    // The loop of memp_init: each block begins with the address of the next.
    method LinkBlocks()
      requires Shape() && blocks == Start(Count(blockSize)) && ptr == mem
      modifies page
      ensures Linked(page[..], mem, blockSize, blocks.free)
    {
      hide Linked, LinksNext, SameOutside, Start, Offset, Load;
      StartCount(Count(blockSize), blockSize);
      var ptr2 := ptr;
      for i := 0 to freeCount
        invariant ptr2 == AddrOf(mem, blockSize, i)
        invariant forall b: nat :: b < i ==> LinksNext(page[..], mem, blockSize, b)
      {
        ghost var was := page[..];
        BlockInPage(blockSize, i);
        Store(ptr2 - mem, ptr2 + blockSize);
        ptr2 := ptr2 + blockSize;
        IsLinkNext(page[..], mem, blockSize, i);
        LinksNextMore(was, page[..], mem, blockSize, i);
      }
      LinkedFromStart(page[..], mem, blockSize);
      Terminate(ptr2 - mem);
    }

    // *(char**)(mem + at) = NULL behind the last block, as far as the page reaches: all eight
    // bytes only if that much of the page is left over.
    method Terminate(at: nat)
      requires Shape() && blocks == Start(Count(blockSize)) && at == Offset(blockSize, Count(blockSize))
      requires Linked(page[..], mem, blockSize, blocks.free)
      modifies page
      ensures Linked(page[..], mem, blockSize, blocks.free)
      ensures forall k :: at <= k < page.Length && k < at + PointerSize ==> page[k] == 0
      ensures SameOutside(old(page[..]), page[..], at, PointerSize)
    {
      hide Linked, Start, Offset;
      ghost var was := page[..];
      forall k | at <= k < page.Length && k < at + PointerSize { page[k] := 0; }
      EndNotFree(blockSize);
      LinkedKept(was, page[..], mem, blockSize, Count(blockSize), 0, PointerSize, blocks.free);
    }

    // _malloc; the result is NULL when no block is left or a block is too small.
    method Malloc(size: nat) returns (p: Addr)
      requires Valid()
      modifies this
      ensures Valid() && mem == old(mem) && blockSize == old(blockSize)
      ensures blocks == After(old(blocks), blockSize, Op.Malloc(size))
      ensures p == 0 <==> old(freeCount) == 0 || blockSize < size
      ensures p != 0 ==> p == AddrOf(mem, blockSize, old(blocks.free)[0])
    {
      hide Linked, Partition, WritesHeld, Offset;
      if freeCount == 0 || blockSize < size { return 0; }
      p := ptr;
      LinkedPop(page[..], mem, blockSize, blocks.free);
      ptr := Value(page[p - mem..p - mem + PointerSize]);
      assert page[p - mem..p - mem + PointerSize] == page[..][p - mem..p - mem + PointerSize];
      freeCount := freeCount - 1;
      Book(Op.Malloc(size));
    }

    // The books follow an operation.
    ghost method Book(op: Op)
      requires blockSize > 0 && Partition(blocks, Count(blockSize)) && WritesHeld(blocks, blockSize)
      requires Allowed(blocks, blockSize, op)
      modifies this`blocks
      ensures Partition(blocks, Count(blockSize)) && WritesHeld(blocks, blockSize)
      ensures blocks == After(old(blocks), blockSize, op)
    {
      PartitionKept(blocks, Count(blockSize), blockSize, op);
      WritesHeldKept(blocks, blockSize, op);
      blocks := After(blocks, blockSize, op);
    }

    // _free of a block that the client holds.
    method Free(p: Addr, ghost b: nat)
      requires Valid() && b in blocks.live && p == AddrOf(mem, blockSize, b)
      modifies this, page
      ensures Valid() && mem == old(mem) && blockSize == old(blockSize)
      ensures blocks == After(old(blocks), blockSize, Op.Free(b))
      ensures SameOutside(old(page[..]), page[..], Offset(blockSize, b), PointerSize)
    {
      hide Linked, Partition, WritesHeld, Undisturbed, SameOutside, Offset;
      ghost var was := page[..];
      HeldBlock(b);
      Store(p - mem, ptr);
      LinkedKept(was, page[..], mem, blockSize, b, 0, PointerSize, blocks.free);
      LinkedPush(page[..], mem, blockSize, b, blocks.free);
      FreeUndisturbed(was, page[..], blocks, blockSize, b);
      ptr := p;
      freeCount := freeCount + 1;
      Book(Op.Free(b));
    }

    lemma HeldBlock(b: nat)
      requires Valid() && b in blocks.live
      ensures b !in blocks.free && b < Count(blockSize) && Offset(blockSize, b) + blockSize <= PageSize
      ensures ptr <= mem + PageSize
    {
      hide Linked, WritesHeld, Undisturbed, Offset;
      var first := FreeAt(blockSize, blocks.free, 0);
      assert blocks.free != [] ==> first in blocks.free;
      EndInPage(blockSize, first);
      BlockInPage(blockSize, b);
    }

    // A client writes into a block that it holds.
    method Write(p: Addr, at: nat, value: Byte, ghost b: nat)
      requires Valid() && b in blocks.live && p == AddrOf(mem, blockSize, b) && at < blockSize
      modifies this, page
      ensures Valid() && mem == old(mem) && blockSize == old(blockSize)
      ensures blocks == After(old(blocks), blockSize, Op.Write(b, at, value))
      ensures Offset(blockSize, b) + at < page.Length && page[..] == old(page[..])[Offset(blockSize, b) + at := value]
    {
      hide Linked, Partition, WritesHeld, Undisturbed, SameOutside, Offset;
      ghost var was := page[..];
      HeldBlock(b);
      page[p - mem + at] := value;
      assert page[..] == was[p - mem + at := value];
      WriteUndisturbed(was, blocks, blockSize, b, at, value);
      LinkedKept(was, page[..], mem, blockSize, b, at, 1, blocks.free);
      Book(Op.Write(b, at, value));
    }

    // Any history of calls, each with the address that the client was handed.
    method Serve(ops: seq<Op>)
      requires Valid() && AllAllowed(blocks, blockSize, ops)
      modifies this, page
      ensures Valid() && mem == old(mem) && blockSize == old(blockSize)
      ensures blocks == Final(old(blocks), blockSize, ops)
      ensures forall b: nat, at: nat :: at < blockSize && LastWrite(ops, b, at).Some? ==>
        Reads(blockSize, b, at, LastWrite(ops, b, at).value)
    {
      hide Linked, Partition, WritesHeld, Undisturbed, After, Valid, Remembers, Reads;
      NothingToRemember(blocks, blockSize);
      var i := 0;
      while i < |ops|
        invariant 0 <= i <= |ops| && Valid() && mem == old(mem) && blockSize == old(blockSize)
        invariant AllAllowed(blocks, blockSize, ops[i..])
        invariant Final(blocks, blockSize, ops[i..]) == Final(old(blocks), blockSize, ops)
        invariant Remembers(blocks, blockSize, ops[..i])
      {
        RemembersKept(blocks, blockSize, ops[..i], ops[i]);
        assert ops[..i + 1] == ops[..i] + [ops[i]];
        assert ops[i..][0] == ops[i] && ops[i..][1..] == ops[i + 1..];
        assert Allowed(blocks, blockSize, ops[i]);
        match ops[i] {
          case Malloc(size) => var _ := Malloc(size);
          case Free(b) => Free(AddrOf(mem, blockSize, b), b);
          case Write(b, at, value) => Write(AddrOf(mem, blockSize, b), at, value, b);
        }
        i := i + 1;
      }
      assert ops[..i] == ops;
      AllRead(ops);
    }

    // The client reads `value` at `at` in its block `b`.
    ghost predicate Reads(size: nat, b: nat, at: nat, value: Byte)
      reads page
    {
      Offset(size, b) + at < page.Length && page[Offset(size, b) + at] == value
    }

    lemma AllRead(ops: seq<Op>)
      requires Valid() && Remembers(blocks, blockSize, ops)
      ensures forall b: nat, at: nat :: at < blockSize && LastWrite(ops, b, at).Some? ==>
        Reads(blockSize, b, at, LastWrite(ops, b, at).value)
    {
      hide Linked, Partition, WritesHeld, LastWrite, Offset;
      forall b: nat, at: nat | at < blockSize && LastWrite(ops, b, at).Some?
        ensures Reads(blockSize, b, at, LastWrite(ops, b, at).value)
      {
        assert Knows(blocks, blockSize, b, at, LastWrite(ops, b, at).value);
      }
    }
  }
}
