/**
  FixedBlockPool of src/util/memory_pool.h. A block is known by the address of its hidden header; the first
  word of the header is the free-list link while the block is free and the origin tag while it is in use.
  Address 0 is the null pointer. Memory obtained from operator new comes as an address that the allocator
  promises to be apart from all memory still in use.
*/
module MemoryPool {
  const HEADER := 16
  const POINTER_SIZE := 8
  const TAG_POOL := 0
  const TAG_OVERSIZED := 0xEB0C_EB0C_EB0C_EB0C

  type Memory = map<nat, nat>

  // ---------------------------------------------------------------- the free list

  /** Following the links from `head` visits exactly `list` and ends at the null pointer. */
  predicate Chain(mem: Memory, head: nat, list: seq<nat>)
    decreases |list|
  {
    if list == [] then head == 0
    else head != 0 && head == list[0] && head in mem && Chain(mem, mem[head], list[1..])
  }

  /** Where the links lead is determined by where they start. */
  lemma {:induction false} ChainUnique(mem: Memory, head: nat, a: seq<nat>, b: seq<nat>)
    requires Chain(mem, head, a) && Chain(mem, head, b)
    ensures a == b
    decreases |a|
  {
    if a != [] && b != [] { ChainUnique(mem, mem[head], a[1..], b[1..]); }
  }

  lemma {:induction false} ChainSuffix(mem: Memory, head: nat, list: seq<nat>, i: nat)
    requires Chain(mem, head, list) && i < |list|
    ensures Chain(mem, list[i], list[i..])
    decreases |list|
  {
    if i == 0 {
      assert list[0..] == list;
    } else {
      ChainSuffix(mem, mem[head], list[1..], i - 1);
      assert list[1..][i - 1..] == list[i..];
    }
  }

  /** A list that ends has no cycle: it visits no block twice. */
  lemma ChainAcyclic(mem: Memory, head: nat, list: seq<nat>, i: nat, j: nat)
    requires Chain(mem, head, list) && i < j < |list|
    ensures list[i] != list[j]
  {
    if list[i] == list[j] {
      ChainSuffix(mem, head, list, i);
      ChainSuffix(mem, head, list, j);
      ChainUnique(mem, list[i], list[i..], list[j..]);
    }
  }

  lemma {:induction false} ChainFrame(mem: Memory, head: nat, list: seq<nat>, at: nat, word: nat)
    requires Chain(mem, head, list) && at !in list
    ensures Chain(mem[at := word], head, list)
    decreases |list|
  {
    if list != [] { ChainFrame(mem, mem[head], list[1..], at, word); }
  }

  lemma ChainHead(mem: Memory, head: nat, list: seq<nat>)
    requires Chain(mem, head, list)
    ensures head == 0 <==> list == []
    ensures list != [] ==> head == list[0] && list[0] !in list[1..]
  {
    if list != [] && list[0] in list[1..] {
      var j :| 0 <= j < |list[1..]| && list[1..][j] == list[0];
      ChainAcyclic(mem, head, list, 0, j + 1);
    }
  }

  // ---------------------------------------------------------------- blocks

  /**
    The pool's memory and bookkeeping: first header word of every block, head of the free list, and
    which blocks (with their lengths, headers included) are listed free, in use, or oversized.
  */
  datatype Heap = Heap(
    mem: Memory, head: nat, total: nat, inUse: nat,
    owned: map<nat, nat>, free: seq<nat>, live: set<nat>, big: set<nat>)

  ghost predicate Apart(owned: map<nat, nat>) {
    forall a, b :: a in owned && b in owned && a != b ==> a + owned[a] <= b || b + owned[b] <= a
  }

  /** What operator new promises of `n` bytes at `base`. */
  ghost predicate Available(owned: map<nat, nat>, base: nat, n: int) {
    base > 0 && forall a :: a in owned ==> a + owned[a] <= base || base + n <= a
  }

  ghost predicate Partition(owned: map<nat, nat>, free: seq<nat>, live: set<nat>, big: set<nat>) {
    (forall a :: a in owned <==> a in free || a in live || a in big) &&
    (forall a :: a in free ==> a !in live && a !in big) && live !! big
  }

  /** The tags tell the blocks in use apart. */
  ghost predicate Tagged(mem: Memory, live: set<nat>, big: set<nat>) {
    (forall a :: a in live ==> a in mem && mem[a] == TAG_POOL) && (forall a :: a in big ==> a in mem && mem[a] == TAG_OVERSIZED)
  }

  ghost predicate Sized(owned: map<nat, nat>, big: set<nat>, slotSize: nat) {
    forall a :: a in owned ==> a > 0 && owned[a] > 0 && (a !in big ==> owned[a] == slotSize)
  }

  ghost predicate Ok(h: Heap, slotSize: nat) {
    slotSize > HEADER && Chain(h.mem, h.head, h.free) && Apart(h.owned) && Partition(h.owned, h.free, h.live, h.big) &&
    Tagged(h.mem, h.live, h.big) && Sized(h.owned, h.big, slotSize) && h.inUse == |h.live| && h.inUse + |h.free| == h.total
  }

  lemma AddBlock(owned: map<nat, nat>, base: nat, n: nat)
    requires Apart(owned) && Available(owned, base, n) && n > 0
    requires forall a :: a in owned ==> owned[a] > 0
    ensures base !in owned && Apart(owned[base := n])
  {
    forall a | a in owned ensures a != base { assert owned[a] > 0; }
  }

  // ---------------------------------------------------------------- the four changes a pool makes

  /** A new block is put on the free list. */
  function Linked(h: Heap, slot: nat, slotSize: nat): (r: Heap) {
    h.(mem := h.mem[slot := h.head], head := slot, total := h.total + 1,
       owned := h.owned[slot := slotSize], free := [slot] + h.free)
  }

  /** The first free block is taken into use. */
  function Taken(h: Heap): (r: Heap)
    requires h.free != [] && h.head in h.mem
  {
    h.(mem := h.mem[h.head := TAG_POOL], head := h.mem[h.head], inUse := h.inUse + 1,
       free := h.free[1..], live := h.live + {h.head})
  }

  /** A block in use goes back to the front of the free list. */
  function Returned(h: Heap, raw: nat): (r: Heap)
    requires h.inUse > 0
  {
    h.(mem := h.mem[raw := h.head], head := raw, inUse := h.inUse - 1, free := [raw] + h.free, live := h.live - {raw})
  }

  function Oversized(h: Heap, base: nat, n: nat): (r: Heap) {
    h.(mem := h.mem[base := TAG_OVERSIZED], owned := h.owned[base := n], big := h.big + {base})
  }

  function Deleted(h: Heap, raw: nat): (r: Heap) {
    h.(owned := h.owned - {raw}, big := h.big - {raw})
  }

  lemma LinkedOk(h: Heap, slot: nat, slotSize: nat)
    requires Ok(h, slotSize) && Available(h.owned, slot, slotSize)
    ensures Ok(Linked(h, slot, slotSize), slotSize) && slot !in h.owned
  {
    AddBlock(h.owned, slot, slotSize);
    ChainFrame(h.mem, h.head, h.free, slot, h.head);
    var r := Linked(h, slot, slotSize);
    assert r.free[1..] == h.free;
  }

  lemma TakenOk(h: Heap, slotSize: nat)
    requires Ok(h, slotSize) && h.free != []
    ensures h.head == h.free[0] && h.head in h.mem && h.head in h.owned && h.head !in h.live && h.head !in h.big
    ensures Ok(Taken(h), slotSize)
  {
    ChainHead(h.mem, h.head, h.free);
    var r := Taken(h);
    ChainFrame(h.mem, r.head, r.free, h.head, TAG_POOL);
    assert h.free == [h.head] + r.free;
    TakenPartition(h);
  }

  lemma TakenPartition(h: Heap)
    requires Partition(h.owned, h.free, h.live, h.big) && h.free != [] && h.head == h.free[0] && h.head !in h.free[1..]
    ensures Partition(h.owned, h.free[1..], h.live + {h.head}, h.big)
  {
    assert forall a :: a in h.free <==> a == h.head || a in h.free[1..];
  }

  lemma ReturnedOk(h: Heap, raw: nat, slotSize: nat)
    requires Ok(h, slotSize) && raw in h.live
    ensures h.inUse > 0 && Ok(Returned(h, raw), slotSize)
  {
    ChainFrame(h.mem, h.head, h.free, raw, h.head);
    var r := Returned(h, raw);
    assert r.free[1..] == h.free;
    assert |r.live| == |h.live| - 1;
  }

  lemma OversizedOk(h: Heap, base: nat, n: nat, slotSize: nat)
    requires Ok(h, slotSize) && Available(h.owned, base, n) && n > 0
    ensures Ok(Oversized(h, base, n), slotSize) && base !in h.owned
  {
    AddBlock(h.owned, base, n);
    ChainFrame(h.mem, h.head, h.free, base, TAG_OVERSIZED);
  }

  lemma DeletedOk(h: Heap, raw: nat, slotSize: nat)
    requires Ok(h, slotSize) && raw in h.big
    ensures Ok(Deleted(h, raw), slotSize)
  {
  }

  /** The tag read at deallocation says where the block came from. */
  lemma TagDecides(h: Heap, raw: nat, slotSize: nat)
    requires Ok(h, slotSize) && (raw in h.live || raw in h.big)
    ensures raw in h.mem && (h.mem[raw] == TAG_OVERSIZED <==> raw in h.big)
  {
  }

  // ---------------------------------------------------------------- a new chunk

  /** The blocks of a chunk are put on the free list from the lowest address up. */
  function Chunked(h: Heap, base: nat, blocks: nat, slotSize: nat): (r: Heap)
    decreases blocks
  {
    if blocks == 0 then h else Linked(Chunked(h, base, blocks - 1, slotSize), base + (blocks - 1) * slotSize, slotSize)
  }

  lemma ClearAfter(owned: map<nat, nat>, base: nat, n: nat, more: int)
    requires Available(owned, base, n + more) && more >= 0
    ensures Available(owned, base, n) && Available(owned[base := n], base + n, more)
  {
  }

  lemma {:induction false} ChunkedOk(h: Heap, base: nat, blocks: nat, n: nat, slotSize: nat)
    requires Ok(h, slotSize) && blocks <= n && Available(h.owned, base, n * slotSize)
    ensures Ok(Chunked(h, base, blocks, slotSize), slotSize)
    ensures Available(Chunked(h, base, blocks, slotSize).owned, base + blocks * slotSize, (n - blocks) * slotSize)
    decreases blocks
  {
    if blocks > 0 {
      var g, slot := Chunked(h, base, blocks - 1, slotSize), base + (blocks - 1) * slotSize;
      ChunkedOk(h, base, blocks - 1, n, slotSize);
      RoomForOne(blocks - 1, slotSize);
      RoomForOne(n - blocks, slotSize);
      ClearAfter(g.owned, slot, slotSize, (n - blocks) * slotSize);
      LinkedOk(g, slot, slotSize);
    }
  }

  lemma RoomForOne(i: nat, size: nat)
    ensures (i + 1) * size == i * size + size && i * size >= 0
  {
  }

  /** What a chunk leaves as it was. */
  lemma {:induction false} ChunkedKeeps(h: Heap, base: nat, blocks: nat, slotSize: nat)
    ensures var r := Chunked(h, base, blocks, slotSize);
            r.live == h.live && r.big == h.big && r.inUse == h.inUse && r.total == h.total + blocks &&
            |r.free| == |h.free| + blocks && r.free[blocks..] == h.free
    decreases blocks
  {
    if blocks > 0 { ChunkedKeeps(h, base, blocks - 1, slotSize); }
  }

  // ---------------------------------------------------------------- in place

  class Pool {
    const blockSize: nat
    const slotSize: nat
    const blocksPerChunk: nat
    const allowGrow: bool
    var freeHead: nat
    var totalBlocks: nat
    var inUse: nat
    var mem: Memory
    ghost var owned: map<nat, nat>
    ghost var free: seq<nat>
    ghost var live: set<nat>
    ghost var big: set<nat>

    ghost function AsHeap(): (h: Heap)
      reads this
    {
      Heap(mem, freeHead, totalBlocks, inUse, owned, free, live, big)
    }

    function AsShape(): (s: Shape) {
      Shape(blockSize, slotSize, blocksPerChunk, allowGrow)
    }

    ghost predicate Valid()
      reads this
    {
      slotSize == HEADER + blockSize && blocksPerChunk > 0 && blockSize >= POINTER_SIZE && Ok(AsHeap(), slotSize)
    }

    constructor (size: nat, initialBlocks: nat, grow: bool, base: nat)
      requires base > 0
      ensures Valid() && blockSize == (if size < POINTER_SIZE then POINTER_SIZE else size) && allowGrow == grow
      ensures live == {} && big == {} && inUse == 0
      ensures totalBlocks == blocksPerChunk == if initialBlocks == 0 then 1 else initialBlocks
    {
      blockSize := if size < POINTER_SIZE then POINTER_SIZE else size;
      slotSize := HEADER + (if size < POINTER_SIZE then POINTER_SIZE else size);
      blocksPerChunk := if initialBlocks == 0 then 1 else initialBlocks;
      allowGrow := grow;
      freeHead, totalBlocks, inUse := 0, 0, 0;
      mem, owned, free, live, big := map[], map[], [], {}, {};
      new;
      ghost var h := AsHeap();
      AllocateChunk(base);
      ChunkedKeeps(h, base, blocksPerChunk, slotSize);
    }

    /** Links the blocks of a new chunk in front of the free list. */
    method AllocateChunk(base: nat)
      requires Valid() && Available(owned, base, blocksPerChunk * slotSize)
      modifies this`freeHead, this`totalBlocks, this`mem, this`owned, this`free
      ensures Valid() && AsHeap() == Chunked(old(AsHeap()), base, blocksPerChunk, slotSize)
    {
      ChunkedOk(AsHeap(), base, blocksPerChunk, blocksPerChunk, slotSize);
      LinkAll(base);
    }

    method LinkAll(base: nat)
      modifies this`freeHead, this`totalBlocks, this`mem, this`owned, this`free
      ensures AsHeap() == Chunked(old(AsHeap()), base, blocksPerChunk, slotSize)
    {
      ghost var h := AsHeap();
      for i := 0 to blocksPerChunk
        invariant AsHeap() == Chunked(h, base, i, slotSize).(total := h.total)
      {
        ChunkedKeeps(h, base, i, slotSize);
        var slot: nat := base + i * slotSize;
        mem := mem[slot := freeHead];
        freeHead := slot;
        free := [slot] + free;
        owned := owned[slot := slotSize];
      }
      ChunkedKeeps(h, base, blocksPerChunk, slotSize);
      totalBlocks := totalBlocks + blocksPerChunk;
    }

    /**
      A block of at least `size` bytes, or the null pointer when the pool is exhausted and may not grow.
      `base` is what operator new would return.
    */
    method Allocate(size: nat, base: nat) returns (p: nat)
      requires Valid() && Legal(AsHeap(), AsShape(), Op.Allocate(size, base))
      modifies this
      ensures Valid() && (AsHeap(), p) == Done(old(AsHeap()), AsShape(), Op.Allocate(size, base))
    {
      if size > blockSize {
        p := AllocateOversized(size, base);
      } else {
        p := AllocateBlock(base);
      }
    }

    method AllocateBlock(base: nat) returns (p: nat)
      requires Valid() && (freeHead == 0 && allowGrow ==> Available(owned, base, blocksPerChunk * slotSize))
      modifies this
      ensures Valid() && (AsHeap(), p) == FromPool(old(AsHeap()), AsShape(), base)
    {
      if freeHead == 0 {
        if !allowGrow { return 0; }
      }
      p := StockAndTake(base);
    }

    method StockAndTake(base: nat) returns (p: nat)
      requires Valid() && (freeHead == 0 ==> Available(owned, base, blocksPerChunk * slotSize))
      modifies this
      ensures Valid()
      ensures var g := Stocked(old(AsHeap()), AsShape(), base); g.head in g.mem && AsHeap() == Taken(g) && p == g.head + HEADER
    {
      Stock(base);
      p := TakeFirst();
    }

    method Stock(base: nat)
      requires Valid() && (freeHead == 0 ==> Available(owned, base, blocksPerChunk * slotSize))
      modifies this`freeHead, this`totalBlocks, this`mem, this`owned, this`free
      ensures Valid() && free != [] && AsHeap() == Stocked(old(AsHeap()), AsShape(), base)
    {
      ChainHead(mem, freeHead, free);
      if freeHead == 0 {
        ChunkedKeeps(AsHeap(), base, blocksPerChunk, slotSize);
        AllocateChunk(base);
      }
    }

    method AllocateOversized(size: nat, base: nat) returns (p: nat)
      requires Valid() && Available(owned, base, HEADER + size)
      modifies this`mem, this`owned, this`big
      ensures Valid() && p == base + HEADER && AsHeap() == Oversized(old(AsHeap()), base, HEADER + size)
    {
      OversizedOk(AsHeap(), base, HEADER + size, slotSize);
      MarkOversized(size, base);
      return base + HEADER;
    }

    method MarkOversized(size: nat, base: nat)
      modifies this`mem, this`owned, this`big
      ensures AsHeap() == Oversized(old(AsHeap()), base, HEADER + size)
    {
      mem := mem[base := TAG_OVERSIZED];
      owned := owned[base := HEADER + size];
      big := big + {base};
    }

    method TakeFirst() returns (p: nat)
      requires Valid() && free != []
      modifies this`freeHead, this`inUse, this`mem, this`free, this`live
      ensures Valid() && old(freeHead) in old(mem) && p == old(freeHead) + HEADER && AsHeap() == Taken(old(AsHeap()))
    {
      TakenOk(AsHeap(), slotSize);
      p := Unlink();
    }

    method Unlink() returns (p: nat)
      requires freeHead in mem && free != []
      modifies this`freeHead, this`inUse, this`mem, this`free, this`live
      ensures p == old(freeHead) + HEADER && AsHeap() == Taken(old(AsHeap()))
    {
      var raw: nat := freeHead;
      freeHead := mem[raw];
      inUse := inUse + 1;
      mem := mem[raw := TAG_POOL];
      free := free[1..];
      live := live + {raw};
      return raw + HEADER;
    }

    /** Gives back what Allocate returned; the tag says where it goes. */
    method Deallocate(p: nat)
      requires Valid() && Legal(AsHeap(), AsShape(), Op.Deallocate(p))
      modifies this
      ensures Valid() && AsHeap() == Done(old(AsHeap()), AsShape(), Op.Deallocate(p)).0
    {
      if p == 0 { return; }
      var raw: nat := p - HEADER;
      TagDecides(AsHeap(), raw, slotSize);
      if mem[raw] == TAG_OVERSIZED {
        Delete(raw);
      } else {
        PutFirst(raw);
      }
    }

    method Delete(raw: nat)
      requires Valid() && raw in big
      modifies this`owned, this`big
      ensures Valid() && AsHeap() == Deleted(old(AsHeap()), raw)
    {
      DeletedOk(AsHeap(), raw, slotSize);
      owned := owned - {raw};
      big := big - {raw};
    }

    method PutFirst(raw: nat)
      requires Valid() && raw in live
      modifies this`freeHead, this`inUse, this`mem, this`free, this`live
      ensures Valid() && old(inUse) > 0 && AsHeap() == Returned(old(AsHeap()), raw)
    {
      ReturnedOk(AsHeap(), raw, slotSize);
      Relink(raw);
    }

    method Relink(raw: nat)
      requires inUse > 0
      modifies this`freeHead, this`inUse, this`mem, this`free, this`live
      ensures AsHeap() == Returned(old(AsHeap()), raw)
    {
      mem := mem[raw := freeHead];
      freeHead := raw;
      inUse := inUse - 1;
      free := [raw] + free;
      live := live - {raw};
    }
  }

  // ---------------------------------------------------------------- whole runs

  datatype Shape = Shape(blockSize: nat, slotSize: nat, blocksPerChunk: nat, allowGrow: bool)

  datatype Op = Allocate(size: nat, base: nat) | Deallocate(p: nat)

  /** operator new keeps its promise, and only blocks in use are given back. */
  ghost predicate Legal(h: Heap, s: Shape, op: Op) {
    match op
    case Allocate(size, base) =>
      if size > s.blockSize then Available(h.owned, base, HEADER + size)
      else h.head == 0 && s.allowGrow ==> Available(h.owned, base, s.blocksPerChunk * s.slotSize)
    case Deallocate(p) => p == 0 || (p >= HEADER && (p - HEADER in h.live || p - HEADER in h.big))
  }

  /** The pool after one call, and the pointer it returns. */
  ghost function Done(h: Heap, s: Shape, op: Op): (r: (Heap, nat))
    requires Ok(h, s.slotSize) && s.blocksPerChunk > 0 && Legal(h, s, op)
    ensures Ok(r.0, s.slotSize)
  {
    match op
    case Allocate(size, base) => Allocated(h, s, size, base)
    case Deallocate(p) => (if p == 0 then h else Released(h, s, p - HEADER), 0)
  }

  ghost function Allocated(h: Heap, s: Shape, size: nat, base: nat): (r: (Heap, nat))
    requires Ok(h, s.slotSize) && s.blocksPerChunk > 0 && Legal(h, s, Allocate(size, base))
    ensures Ok(r.0, s.slotSize)
  {
    if size > s.blockSize then (FromHeap(h, s, size, base), base + HEADER) else FromPool(h, s, base)
  }

  ghost function FromHeap(h: Heap, s: Shape, size: nat, base: nat): (r: Heap)
    requires Ok(h, s.slotSize) && Available(h.owned, base, HEADER + size)
    ensures Ok(r, s.slotSize)
  {
    OversizedOk(h, base, HEADER + size, s.slotSize);
    Oversized(h, base, HEADER + size)
  }

  ghost function FromPool(h: Heap, s: Shape, base: nat): (r: (Heap, nat))
    requires Ok(h, s.slotSize) && s.blocksPerChunk > 0
    requires h.head == 0 && s.allowGrow ==> Available(h.owned, base, s.blocksPerChunk * s.slotSize)
    ensures Ok(r.0, s.slotSize)
  {
    if h.head == 0 && !s.allowGrow then (h, 0)
    else
      var g := Stocked(h, s, base);
      TakenOk(g, s.slotSize);
      (Taken(g), g.head + HEADER)
  }

  ghost function Released(h: Heap, s: Shape, raw: nat): (r: Heap)
    requires Ok(h, s.slotSize) && (raw in h.live || raw in h.big)
    ensures Ok(r, s.slotSize)
  {
    if raw in h.big then
      DeletedOk(h, raw, s.slotSize);
      Deleted(h, raw)
    else
      ReturnedOk(h, raw, s.slotSize);
      Returned(h, raw)
  }

  /** With a new chunk when the list is empty. */
  ghost function Stocked(h: Heap, s: Shape, base: nat): (g: Heap)
    requires Ok(h, s.slotSize) && s.blocksPerChunk > 0
    requires h.head == 0 ==> Available(h.owned, base, s.blocksPerChunk * s.slotSize)
    ensures Ok(g, s.slotSize) && g.free != []
  {
    ChainHead(h.mem, h.head, h.free);
    if h.head == 0 then
      ChunkedOk(h, base, s.blocksPerChunk, s.blocksPerChunk, s.slotSize);
      ChunkedKeeps(h, base, s.blocksPerChunk, s.slotSize);
      Chunked(h, base, s.blocksPerChunk, s.slotSize)
    else h
  }

  // ---------------------------------------------------------------- what a caller can rely on

  /** An oversized request gets memory of its own, whatever the pool holds. */
  lemma OversizedMeans(h: Heap, s: Shape, size: nat, base: nat)
    requires Ok(h, s.slotSize) && s.blocksPerChunk > 0 && Legal(h, s, Allocate(size, base)) && size > s.blockSize
    ensures var (r, p) := Done(h, s, Allocate(size, base));
            p == base + 16 && base !in h.owned && r.owned == h.owned[base := size + 16] && r.big == h.big + {base} &&
            r.live == h.live && r.free == h.free && r.total == h.total && r.inUse == h.inUse
  {
    OversizedOk(h, base, HEADER + size, s.slotSize);
  }

  /** Any other takes the first free block, if there is one; the pool does not grow for it. */
  lemma ListedMeans(h: Heap, s: Shape, size: nat, base: nat)
    requires Ok(h, s.slotSize) && s.blocksPerChunk > 0 && Legal(h, s, Allocate(size, base)) && size <= s.blockSize && h.free != []
    ensures var (r, p) := Done(h, s, Allocate(size, base));
            p == h.free[0] + 16 && r.free == h.free[1..] && r.live == h.live + {h.free[0]} && h.free[0] !in h.live &&
            r.total == h.total && r.inUse == h.inUse + 1 && r.owned == h.owned && r.big == h.big
  {
    ChainHead(h.mem, h.head, h.free);
    TakenOk(h, s.slotSize);
  }

  /** With none free, a pool that may grow takes a whole chunk and hands out one of its blocks; one that may not gives nothing. */
  lemma EmptyMeans(h: Heap, s: Shape, size: nat, base: nat)
    requires Ok(h, s.slotSize) && s.blocksPerChunk > 0 && Legal(h, s, Allocate(size, base)) && size <= s.blockSize && h.free == []
    ensures var (r, p) := Done(h, s, Allocate(size, base));
            if s.allowGrow then
              base <= p - 16 && p - 16 + s.slotSize <= base + s.blocksPerChunk * s.slotSize && p - 16 !in h.owned &&
              r.live == h.live + {p - 16} && r.total == h.total + s.blocksPerChunk && |r.free| == s.blocksPerChunk - 1 &&
              r.inUse == h.inUse + 1 && r.big == h.big
            else r == h && p == 0
  {
    ChainHead(h.mem, h.head, h.free);
    if s.allowGrow {
      ChunkedKeeps(h, base, s.blocksPerChunk, s.slotSize);
      ChunkedOk(h, base, s.blocksPerChunk, s.blocksPerChunk, s.slotSize);
      LastOfChunk(h, base, s.blocksPerChunk, s.slotSize);
      TakenOk(Chunked(h, base, s.blocksPerChunk, s.slotSize), s.slotSize);
    }
  }

  /** The first block to come of a chunk is its last. */
  lemma LastOfChunk(h: Heap, base: nat, blocks: nat, slotSize: nat)
    requires blocks > 0 && Ok(h, slotSize) && Available(h.owned, base, blocks * slotSize)
    ensures var head := Chunked(h, base, blocks, slotSize).head;
            head == base + (blocks - 1) * slotSize && base <= head && head + slotSize <= base + blocks * slotSize && head !in h.owned
  {
    RoomForOne(blocks - 1, slotSize);
    var head := base + (blocks - 1) * slotSize;
    assert forall a :: a in h.owned ==> h.owned[a] > 0;
  }

  /** So a caller gets the null pointer exactly when it asks for a pool block, none is free and the pool may not grow. */
  lemma NullIff(h: Heap, s: Shape, size: nat, base: nat)
    requires Ok(h, s.slotSize) && s.blocksPerChunk > 0 && Legal(h, s, Allocate(size, base))
    ensures Done(h, s, Allocate(size, base)).1 == 0 <==> size <= s.blockSize && h.free == [] && !s.allowGrow
    ensures var r := Done(h, s, Allocate(size, base)).0;
            r.total == if size <= s.blockSize && h.free == [] && s.allowGrow then h.total + s.blocksPerChunk else h.total
  {
    if size > s.blockSize {
      OversizedMeans(h, s, size, base);
    } else if h.free != [] {
      ListedMeans(h, s, size, base);
    } else {
      EmptyMeans(h, s, size, base);
    }
  }

  /** A pool block given back is the next to be handed out; an oversized one goes back to the heap. */
  lemma ReturnedMeans(h: Heap, s: Shape, p: nat)
    requires Ok(h, s.slotSize) && s.blocksPerChunk > 0 && Legal(h, s, Deallocate(p))
    ensures var r := Done(h, s, Deallocate(p)).0;
            if p == 0 then r == h
            else if p - 16 in h.live then
              r.free == [p - 16] + h.free && r.live == h.live - {p - 16} && r.owned == h.owned && r.big == h.big &&
              r.inUse == h.inUse - 1 && r.total == h.total
            else
              r.big == h.big - {p - 16} && r.owned == h.owned - {p - 16} && r.free == h.free && r.live == h.live &&
              r.inUse == h.inUse && r.total == h.total
  {
    if p != 0 && p - 16 in h.live { ReturnedOk(h, p - 16, s.slotSize); }
  }

  /** A block handed out by the pool is new to the caller and apart, header and all, from every block in use. */
  lemma TakenIsApart(h: Heap, slotSize: nat, other: nat)
    requires Ok(h, slotSize) && h.free != [] && (other in h.live || other in h.big)
    ensures h.head in h.owned && other in h.owned && h.owned[h.head] == slotSize
    ensures h.head + slotSize <= other || other + h.owned[other] <= h.head
  {
    TakenOk(h, slotSize);
  }

  /** Allocating and giving back at once restores the list, the count and the sets. */
  lemma TakeThenReturn(h: Heap, slotSize: nat)
    requires Ok(h, slotSize) && h.free != []
    ensures h.head in h.mem && Returned(Taken(h), h.head) == h
  {
    TakenOk(h, slotSize);
    Restored(h);
  }

  lemma Restored(h: Heap)
    requires h.free != [] && h.head == h.free[0] && h.head in h.mem && h.head !in h.live
    ensures Returned(Taken(h), h.head) == h
  {
    assert [h.head] + h.free[1..] == h.free;
    assert h.live + {h.head} - {h.head} == h.live;
  }

  /** A run of calls, each legal where it is made. */
  ghost predicate LegalRun(h: Heap, s: Shape, ops: seq<Op>)
    requires Ok(h, s.slotSize) && s.blocksPerChunk > 0
    decreases |ops|
  {
    ops == [] || (Legal(h, s, ops[0]) && LegalRun(Done(h, s, ops[0]).0, s, ops[1..]))
  }

  ghost function DoneAll(h: Heap, s: Shape, ops: seq<Op>): (r: Heap)
    requires Ok(h, s.slotSize) && s.blocksPerChunk > 0 && LegalRun(h, s, ops)
    ensures Ok(r, s.slotSize)
    decreases |ops|
  {
    if ops == [] then h else DoneAll(Done(h, s, ops[0]).0, s, ops[1..])
  }

  /** How many pool blocks a run takes and gives back. */
  ghost function Net(h: Heap, s: Shape, ops: seq<Op>): (n: int)
    requires Ok(h, s.slotSize) && s.blocksPerChunk > 0 && LegalRun(h, s, ops)
    decreases |ops|
  {
    if ops == [] then 0
    else
      var r := Done(h, s, ops[0]);
      (match ops[0]
       case Allocate(size, _) => if size <= s.blockSize && r.1 != 0 then 1 else 0
       case Deallocate(p) => if p != 0 && p - HEADER in h.live then -1 else 0) + Net(r.0, s, ops[1..])
  }

  predicate Grows(h: Heap, s: Shape, op: Op) {
    op.Allocate? && op.size <= s.blockSize && h.free == [] && s.allowGrow
  }

  lemma CallCapacity(h: Heap, s: Shape, op: Op)
    requires Ok(h, s.slotSize) && s.blocksPerChunk > 0 && Legal(h, s, op)
    ensures Done(h, s, op).0.total == h.total + if Grows(h, s, op) then s.blocksPerChunk else 0
  {
    match op
    case Allocate(size, base) => NullIff(h, s, size, base);
    case Deallocate(p) => ReturnedMeans(h, s, p);
  }

  /** A chunk for every call of the run that finds the list empty in a pool that may grow. */
  ghost function Added(h: Heap, s: Shape, ops: seq<Op>): (n: nat)
    requires Ok(h, s.slotSize) && s.blocksPerChunk > 0 && LegalRun(h, s, ops)
    decreases |ops|
  {
    if ops == [] then 0
    else (if Grows(h, s, ops[0]) then s.blocksPerChunk else 0) + Added(Done(h, s, ops[0]).0, s, ops[1..])
  }

  /** That is all by which a run changes the capacity. */
  lemma {:induction false} RunCapacity(h: Heap, s: Shape, ops: seq<Op>)
    requires Ok(h, s.slotSize) && s.blocksPerChunk > 0 && LegalRun(h, s, ops)
    ensures DoneAll(h, s, ops).total == h.total + Added(h, s, ops)
    decreases |ops|
  {
    if ops != [] {
      CallCapacity(h, s, ops[0]);
      RunCapacity(Done(h, s, ops[0]).0, s, ops[1..]);
    }
  }

  /** Over every legal run the counters are the calls' balance, and every block is in use or listed exactly once. */
  lemma {:induction false} RunBalance(h: Heap, s: Shape, ops: seq<Op>)
    requires Ok(h, s.slotSize) && s.blocksPerChunk > 0 && LegalRun(h, s, ops)
    ensures var r := DoneAll(h, s, ops);
            r.inUse == h.inUse + Net(h, s, ops) && r.inUse + |r.free| == r.total && r.inUse == |r.live|
    decreases |ops|
  {
    if ops != [] {
      CallBalance(h, s, ops[0]);
      RunBalance(Done(h, s, ops[0]).0, s, ops[1..]);
    }
  }

  lemma CallBalance(h: Heap, s: Shape, op: Op)
    requires Ok(h, s.slotSize) && s.blocksPerChunk > 0 && Legal(h, s, op)
    ensures var r := Done(h, s, op);
            r.0.inUse == h.inUse + match op
              case Allocate(size, _) => if size <= s.blockSize && r.1 != 0 then 1 else 0
              case Deallocate(p) => if p != 0 && p - HEADER in h.live then -1 else 0
  {
    if op.Allocate? { ChunkedKeeps(h, op.base, s.blocksPerChunk, s.slotSize); }
  }
}
