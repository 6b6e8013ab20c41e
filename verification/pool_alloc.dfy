// The pool allocator (src/memory/memory_pool.c): block headers, list links and the roving pointer
// to the next unused block are updated in place.
module PoolAlloc {
  import opened Common
  import opened PoolBlocks

  // A block that a request may get.
  ghost predicate Fits(mem: Mem, a: Addr, need: nat) {
    a in mem && a != HEAD && mem[a].used == 0 && mem[a].size >= need
  }

  // Counting on around the ring.
  function Wrap(i: nat, n: nat): nat { if i < n then i else i - n }

  // The q-th header from position s on has been passed by.
  ghost predicate Passed(mem: Mem, ring: seq<Addr>, need: nat, s: nat, q: nat) {
    s < |ring| && q < |ring| && !Fits(mem, ring[Wrap(s + q, |ring|)], need)
  }

  // b is the first block that fits, searching around the ring from 'from' on.
  ghost predicate FirstFit(mem: Mem, ring: seq<Addr>, from: Addr, b: Addr, need: nat) {
    exists s: nat, k: nat :: FirstFitAt(mem, ring, from, b, need, s, k)
  }

  ghost predicate FirstFitAt(mem: Mem, ring: seq<Addr>, from: Addr, b: Addr, need: nat, s: nat, k: nat) {
    s < |ring| && k < |ring| && ring[s] == from && ring[Wrap(s + k, |ring|)] == b && Fits(mem, b, need) &&
    forall q {:trigger Passed(mem, ring, need, s, q)} :: 0 <= q < k ==> Passed(mem, ring, need, s, q)
  }

  // abs on a 64-bit difference, which is cut to 32 bits first; then compared as a size_t.
  function AbsInt(d: int): nat {
    var t := (d + 0x8000_0000) % 0x1_0000_0000 - 0x8000_0000;
    if t == -0x8000_0000 then WORD - 0x8000_0000 else if t < 0 then -t else t
  }

  // Does a block shrink that is this much too large?
  predicate Shrinks(sizeDiff: int) { AbsInt(sizeDiff) >= MIN_BLOCK && -sizeDiff > MIN_BLOCK }

  // Exactly those whose surplus is not within a smallest block of a multiple of 2^32, such as 2^32.
  lemma ShrinksExactly(over: nat)
    ensures Shrinks(0 - over) <==>
            over > MIN_BLOCK && MIN_BLOCK <= over % 0x1_0000_0000 <= 0x1_0000_0000 - MIN_BLOCK
    ensures !Shrinks(-0x1_0000_0000)
  {
    var q, r := over / 0x1_0000_0000, over % 0x1_0000_0000;
    var carry := if r <= 0x8000_0000 then 0 else 1;
    var rest := 0x8000_0000 - r + carry * 0x1_0000_0000;
    assert 0x8000_0000 - over == rest + (0 - q - carry) * 0x1_0000_0000;
    Remainder(rest, 0 - q - carry);
  }

  lemma Remainder(rest: int, q: int)
    requires 0 <= rest < 0x1_0000_0000
    ensures (rest + q * 0x1_0000_0000) % 0x1_0000_0000 == rest
  {}

  // The free block a holds all of the block that was at b.
  ghost predicate FreeAround(mem: Mem, a: Addr, b: Addr, size: nat) {
    a in mem && mem[a].used == 0 && a <= b && b + size <= a + mem[a].size
  }

  class Pool {
    var mem: Mem
    var nextUnused: Addr
    var sequence: nat
    var size: nat

    // The head and the blocks, in list order; the address of the first block.
    ghost var ring: seq<Addr>
    ghost var base: Addr

    predicate Ready()
      reads this
    {
      HEAD in mem && mem[HEAD].used != 0
    }

    // The block before the next unused one is in use: the search may leave it out.
    ghost predicate Valid()
      reads this
    {
      if !Ready() then mem.Keys == {HEAD}
      else
        size >= MIN_POOL && Tiled(mem, ring, base, base + size) && Apart(mem) &&
        nextUnused in mem && mem[nextUnused].prev in mem && mem[mem[nextUnused].prev].used != 0
    }

    // A pool_t filled with zeros
    constructor ()
      ensures Valid() && !Ready()
    {
      mem := map[HEAD := Block(0, 0, 0, HEAD, HEAD)];
      nextUnused := HEAD;
      sequence, size := 0, 0;
      ring, base := [], 0;
    }

    // pool_set_up: one free block, at the first multiple of 16 behind the start of the buffer
    method SetUp(buffer: Addr, poolSize: nat) returns (ok: bool)
      requires Valid() && !Ready()
      modifies this
      ensures Valid() && ok == (poolSize >= MIN_POOL) && ok == Ready()
      ensures ok ==> size == poolSize && base % ALIGNMENT == 0 && buffer < base <= buffer + ALIGNMENT
      ensures ok ==> Live(mem) == map[] && Fits(mem, base, poolSize)
    {
      if poolSize < MIN_POOL {
        return false;
      }
      size := poolSize;
      var block := buffer + ALIGNMENT - (buffer + ALIGNMENT) % ALIGNMENT;
      mem := map[HEAD := Block(1, 0, 0, block, block)];
      mem := mem[block := Block(0, 0, poolSize, HEAD, HEAD)];
      nextUnused := block;
      sequence := 1;
      ring, base := [HEAD, block], block;
      OneBlock(mem, ring, block, poolSize);
      ok := true;
    }

    // pool_malloc.  A request fails only where no free block is large enough.
    method Malloc(sz: nat, tag: int) returns (p: Option<Addr>)
      requires Valid() && sz < WORD
      modifies this
      ensures Valid() && size == old(size) && base == old(base) && Ready() == old(Ready())
      ensures p.None? <==> tag == 0 || !Ready() || forall a :: !Fits(old(mem), a, Needed(sz))
      ensures p.None? ==> mem == old(mem) && nextUnused == old(nextUnused)
      ensures p.Some? ==> p.value >= HEADER && p.value - HEADER in mem
      ensures p.Some? ==> var b := p.value - HEADER;
              FirstFit(old(mem), old(ring), old(nextUnused), b, Needed(sz)) && b !in Live(old(mem)) &&
              Live(mem) == Live(old(mem))[b := mem[b].size] &&
              Needed(sz) <= mem[b].size <= Needed(sz) + MIN_BLOCK && mem[b].tag == tag && nextUnused == mem[b].next
      ensures p.Some? && sz + HEADER + ALIGNMENT < WORD ==> HEADER + sz + GUARD <= mem[p.value - HEADER].size
    {
      if tag == 0 { return None; }
      if !Ready() {
        NothingFits(mem, Needed(sz));
        return None;
      }
      var blockSize := BlockSize(sz);
      if blockSize < MIN_BLOCK { blockSize := MIN_BLOCK; }
      if blockSize > size {
        TooLarge(mem, ring, base, size, blockSize);
        return None;
      }
      hide Tiled, Apart, Live, FirstFit, Fits;
      NeededFits(sz);
      var block, j := Search(blockSize);
      if block.None? { return None; }
      Take(block.value, blockSize, tag, j);
      p := Some(block.value + HEADER);
    }

    // The loop of pool_malloc: from the next unused block around to the one before it, exclusively
    method Search(blockSize: nat) returns (found: Option<Addr>, ghost j: nat)
      requires Valid() && Ready()
      ensures found.None? ==> forall a :: !Fits(mem, a, blockSize)
      ensures found.Some? ==> FirstFit(mem, ring, nextUnused, found.value, blockSize) && Fits(mem, found.value, blockSize)
      ensures found.Some? ==> 1 <= j < |ring| && ring[j] == found.value
    {
      hide Tiled, Apart;
      var block := nextUnused;
      ghost var s := IndexOf(mem, ring, base, base + size, nextUnused);
      ghost var n, k := |ring|, 0;
      j := s;
      Neighbours(mem, ring, base, base + size, s);
      HeadInUse(mem, ring, base, base + size);
      var terminator := mem[nextUnused].prev;
      while block != terminator
        invariant k < n && s < n && j == Wrap(s + k, n) && block == ring[j] && block in mem
        invariant forall q {:trigger Passed(mem, ring, blockSize, s, q)} :: 0 <= q < k ==>
                  Passed(mem, ring, blockSize, s, q)
        decreases n - k
      {
        Neighbours(mem, ring, base, base + size, j);
        if !(mem[block].used != 0) && !(mem[block].size < blockSize) {
          assert FirstFitAt(mem, ring, nextUnused, block, blockSize, s, k);
          return Some(block), j;
        }
        block := mem[block].next;
        NotLast(mem, ring, base, base + size, s, k);
        assert Passed(mem, ring, blockSize, s, k);
        k := k + 1;
        j := Wrap(s + k, n);
      }
      SearchedAll(mem, ring, base, base + size, s, k, blockSize);
      found := None;
    }

    // The block found is split if it is large enough, and taken.
    method Take(block: Addr, blockSize: nat, tag: int, ghost j: nat)
      requires Valid() && Ready() && 1 <= j < |ring| && ring[j] == block && Fits(mem, block, blockSize) &&
               blockSize >= MIN_BLOCK
      modifies this
      ensures Valid() && Ready() && size == old(size) && base == old(base)
      ensures block in mem && block !in Live(old(mem)) && Live(mem) == Live(old(mem))[block := mem[block].size] &&
              mem[block].tag == tag
      ensures blockSize <= mem[block].size <= blockSize + MIN_BLOCK && nextUnused == mem[block].next
    {
      hide Tiled, Apart, ApartBut, Split, SplitRing, Live;
      NotLive(mem, block);
      FreeNeighbours(mem, ring, base, base + size, j);
      HeadInUse(mem, ring, base, base + size);
      if sequence == 0 { sequence := 1; }
      sequence := sequence + 1;
      if mem[block].size - blockSize > MIN_BLOCK {
        SplitUse(mem, ring, base, base + size, j, blockSize, sequence, tag);
        SplitApart(mem, ring, base, base + size, j, blockSize, sequence, tag);
        ghost var ring' := SplitRing(ring, j, blockSize);
        SplitBlock(block, blockSize, j);
        ring := ring';
      } else {
        WholeUse(mem, ring, base, base + size, block, sequence, tag);
      }
      ghost var mem1 := mem;
      mem := mem[block := mem[block].(used := sequence)];
      mem := mem[block := mem[block].(tag := tag)];
      assert mem == Use(mem1, block, sequence, tag);
      StillHead(mem, ring, base, base + size);
      ghost var i := IndexOf(mem, ring, base, base + size, block);
      Neighbours(mem, ring, base, base + size, i);
      nextUnused := mem[block].next;
    }

    // pool_split_block, on a block that can be split
    method SplitBlock(block: Addr, predSize: nat, ghost j: nat)
      requires Tiled(mem, ring, base, base + size) && 1 <= j < |ring| && ring[j] == block && block in mem
      requires MIN_BLOCK <= predSize && mem[block].size - predSize > MIN_BLOCK
      modifies `mem
      ensures mem == Split(old(mem), block, predSize)
    {
      SplitFacts(mem, ring, base, base + size, j, predSize);
      hide Tiled;
      var rest := block + predSize;
      mem := mem[rest := Block(0, 0, mem[block].size - predSize, HEAD, HEAD)];
      mem := mem[block := mem[block].(size := predSize)];
      mem := mem[rest := mem[rest].(next := mem[block].next)];
      mem := mem[rest := mem[rest].(prev := block)];
      mem := mem[mem[rest].next := mem[mem[rest].next].(prev := rest)];
      mem := mem[block := mem[block].(next := rest)];
    }

    // pool_realloc, where the block is large enough already: it keeps its place, and what it does
    // not need becomes a free block.  p: a payload in use.
    method Shrink(p: Option<Addr>, sz: nat) returns (q: Option<Addr>)
      requires Valid() && Ready() && sz < WORD
      requires p.Some? ==> p.value >= HEADER && p.value - HEADER in mem
      requires p.Some? && p.value - HEADER != HEAD ==> p.value - HEADER in Live(mem) && Needed(sz) <= mem[p.value - HEADER].size
      modifies this
      ensures Valid() && Ready() && size == old(size) && base == old(base)
      ensures q == if p.Some? && p.value - HEADER != HEAD then p else None
      ensures q.None? ==> unchanged(this)
      ensures q.Some? ==> var b := q.value - HEADER;
              b in mem && Live(mem) == Live(old(mem))[b := mem[b].size] &&
              mem[b].size == if Shrinks(Needed(sz) - old(mem)[b].size) then Needed(sz) else old(mem)[b].size
      ensures q.Some? && Shrinks(Needed(sz) - old(mem)[q.value - HEADER].size) ==>
                nextUnused == q.value - HEADER + Needed(sz) && nextUnused in mem && mem[nextUnused].used == 0
      ensures q.Some? && !Shrinks(Needed(sz) - old(mem)[q.value - HEADER].size) ==> unchanged(this)
    {
      if p.None? { return None; }
      var block := p.value - HEADER;
      if block == HEAD { return None; }
      var newSize := BlockSize(sz);
      if newSize < MIN_BLOCK { newSize := MIN_BLOCK; }
      var sizeDiff: int := newSize - mem[block].size;
      LiveSame(mem, block);
      if sizeDiff == 0 { return p; }
      if sizeDiff < 0 && AbsInt(sizeDiff) < MIN_BLOCK { return p; }
      if mem[block].size - newSize > MIN_BLOCK { CutOff(block, newSize); }
      q := p;
    }

    // The block can be split: the rest is joined to a free block behind it.
    method CutOff(block: Addr, newSize: nat)
      requires Valid() && Ready() && block in Live(mem) && MIN_BLOCK <= newSize && mem[block].size - newSize > MIN_BLOCK
      modifies `mem, `ring, `nextUnused
      ensures Valid() && Ready() && block in mem && mem[block].size == newSize &&
              Live(mem) == Live(old(mem))[block := newSize]
      ensures nextUnused == block + newSize && nextUnused in mem && mem[nextUnused].used == 0
    {
      hide Tiled, Apart, ApartBut, Split, SplitRing, Live;
      LiveIs(mem, block);
      ghost var j := IndexOf(mem, ring, base, base + size, block);
      SplitUse(mem, ring, base, base + size, j, newSize, mem[block].used, mem[block].tag);
      SplitApart(mem, ring, base, base + size, j, newSize, mem[block].used, mem[block].tag);
      SplitKeepsUse(mem, ring, base, base + size, j, newSize);
      SplitRingIs(ring, j, newSize);
      SplitBlock(block, newSize, j);
      ring := SplitRing(ring, j, newSize);
      JoinRest(block, j);
    }

    // 'if (!block->next->next->used) pool_merge_blocks(block->next, block->next->next)'
    method JoinRest(block: Addr, ghost j: nat)
      requires Tiled(mem, ring, base, base + size) && 1 <= j && j + 1 < |ring| && ring[j] == block && block in mem &&
               mem[block].used != 0
      requires ring[j + 1] in mem && mem[ring[j + 1]].used == 0 && ApartBut(mem, ring[j + 1]) && size >= MIN_POOL
      requires mem[ring[j + 1]].next in mem && (mem[mem[ring[j + 1]].next].used != 0 ==> Apart(mem))
      modifies `mem, `ring, `nextUnused
      ensures Valid() && Ready() && block in mem && mem[block].size == old(mem[block].size) &&
              Live(mem) == Live(old(mem))
      ensures nextUnused == old(ring)[j + 1] && nextUnused in mem && mem[nextUnused].used == 0
    {
      hide Tiled, Apart, ApartBut, Live, Merge, MergeRing;
      Neighbours(mem, ring, base, base + size, j);
      Neighbours(mem, ring, base, base + size, j + 1);
      var rest := mem[block].next;
      if mem[mem[rest].next].used == 0 {
        HeadInUse(mem, ring, base, base + size);
        FreeNext(mem, ring, base, base + size, j + 1);
        Joined(mem, ring, base, base + size, j + 1);
        JoinedNext(mem, ring, base, base + size, j + 1);
        MergeRingIs(ring, j + 1);
        MergeFacts(mem, ring, base, base + size, j + 1);
        var code := MergeBlocks(rest, mem[rest].next, j + 1);
        Neighbours(mem, ring, base, base + size, j + 1);
        FreeAlone(mem, ring, base, base + size, j + 1);
      }
      StillHead(mem, ring, base, base + size);
      nextUnused := mem[block].next;
    }

    // pool_merge_blocks
    method MergeBlocks(blka: Addr, blkb: Addr, ghost j: nat) returns (code: int)
      requires Tiled(mem, ring, base, base + size) && 1 <= j && j + 1 < |ring| && blka == ring[j] && blkb == ring[j + 1]
      modifies `mem, `ring
      ensures blka in old(mem) && old(mem)[blka].next in old(mem)
      ensures code == 0 && mem == Merge(old(mem), blka) && ring == MergeRing(old(ring), j)
    {
      MergeFacts(mem, ring, base, base + size, j);
      InOrder(mem, ring, base, base + size, j, j + 1);
      hide Tiled, Merge, MergeRing;
      var a, b := blka, blkb;
      if b < a { a, b := b, a; }
      if mem[a].next != b { return -2; }
      TakeOver(a, j);
      code := 0;
    }

    // pool_free.  The caller passes no address, the head, or the payload of a block.
    method Free(buffer: Option<Addr>)
      requires Valid() && Ready()
      requires buffer.Some? ==> buffer.value >= HEADER && buffer.value - HEADER in mem
      modifies this
      ensures Valid() && Ready() && size == old(size) && base == old(base)
      ensures var known := buffer.Some? && buffer.value - HEADER in Live(old(mem));
              Live(mem) == (if known then Live(old(mem)) - {buffer.value - HEADER} else Live(old(mem))) && (!known ==> unchanged(this))
      ensures buffer.Some? && buffer.value - HEADER in Live(old(mem)) ==>
                FreeAround(mem, nextUnused, buffer.value - HEADER, old(mem)[buffer.value - HEADER].size)
    {
      if buffer.None? { return; }
      var block := buffer.value - HEADER;
      if block == HEAD { return; }
      if mem[block].size < MIN_BLOCK || mem[block].used == 0 {
        NotSmall(mem, ring, base, base + size, block);
        return;
      }
      hide Tiled, Apart;
      ghost var mem0 := mem;
      NowFree(mem, mem[block := mem[block].(used := 0)], ring, base, base + size, block);
      HeadInUse(mem, ring, base, base + size);
      mem := mem[block := mem[block].(used := 0)];
      StillHead(mem, ring, base, base + size);
      JoinNext(block);
      JoinPrev(block);
    }

    // The free block behind a block that has just become free
    method JoinNext(block: Addr)
      requires Tiled(mem, ring, base, base + size) && ApartBut(mem, block) && block in mem && block != HEAD &&
               mem[block].used == 0
      modifies `mem, `ring
      ensures Tiled(mem, ring, base, base + size) && ApartBut(mem, block) && Live(mem) == Live(old(mem)) &&
              block in mem && mem[block].used == 0
      ensures mem[block].next in mem && mem[mem[block].next].used != 0 && mem[block].size >= old(mem[block].size)
    {
      hide Tiled, ApartBut, Merge, MergeRing;
      ghost var j := IndexOf(mem, ring, base, base + size, block);
      Neighbours(mem, ring, base, base + size, j);
      HeadInUse(mem, ring, base, base + size);
      if mem[mem[block].next].used == 0 {
        Joined(mem, ring, base, base + size, j);
        JoinedNext(mem, ring, base, base + size, j);
        MergeSize(mem, ring, base, base + size, j);
        TakeOver(block, j);
      }
    }

    // 'block->size += block->next->size; block->next = block->next->next; block->next->prev = block'
    method TakeOver(block: Addr, ghost j: nat)
      requires Tiled(mem, ring, base, base + size) && 1 <= j && j + 1 < |ring| && ring[j] == block
      modifies `mem, `ring
      ensures block in old(mem) && old(mem)[block].next in old(mem) && mem == Merge(old(mem), block) &&
              ring == MergeRing(old(ring), j)
    {
      MergeFacts(mem, ring, base, base + size, j);
      hide Tiled, MergeRing;
      var c := mem[block].next;     // no longer a header
      mem := mem[block := mem[block].(size := mem[block].size + mem[mem[block].next].size)];
      mem := mem[block := mem[block].(next := mem[mem[block].next].next)];
      mem := mem[mem[block].next := mem[mem[block].next].(prev := block)];
      mem := mem - {c};
      ring := MergeRing(ring, j);
    }

    // The free block before it; then the free block is the next unused one.
    method JoinPrev(block: Addr)
      requires Tiled(mem, ring, base, base + size) && ApartBut(mem, block) && block in mem && block != HEAD &&
               mem[block].used == 0
      requires mem[block].next in mem && mem[mem[block].next].used != 0 && size >= MIN_POOL
      modifies `mem, `ring, `nextUnused
      ensures Valid() && Ready() && Live(mem) == Live(old(mem))
      ensures FreeAround(mem, nextUnused, block, old(mem[block].size))
    {
      hide Tiled, ApartBut, Apart, Merge, MergeRing;
      ghost var j := IndexOf(mem, ring, base, base + size, block);
      Neighbours(mem, ring, base, base + size, j);
      HeadInUse(mem, ring, base, base + size);
      var free := block;
      if mem[mem[block].prev].used == 0 {
        free := mem[block].prev;
        FreePrev(mem, ring, base, base + size, j);
        Joined(mem, ring, base, base + size, j - 1);
        JoinedPrev(mem, ring, base, base + size, j - 1);
        MergeSize(mem, ring, base, base + size, j - 1);
        TakeOver(free, j - 1);
      } else {
        FreeAlone(mem, ring, base, base + size, j);
      }
      StillHead(mem, ring, base, base + size);
      nextUnused := free;
    }
  }

  // ----- facts drawn from the invariant -----

  lemma OneBlock(mem: Mem, ring: seq<Addr>, block: Addr, size: nat)
    requires block > 0 && size >= MIN_POOL && ring == [HEAD, block]
    requires mem == map[HEAD := Block(1, 0, 0, block, block), block := Block(0, 0, size, HEAD, HEAD)]
    ensures Tiled(mem, ring, block, block + size) && Apart(mem)
  {
    assert LinkAt(mem, ring, 0) && LinkAt(mem, ring, 1) && TileAt(mem, ring, block + size, 1);
    assert ApartAt(mem, HEAD) && ApartAt(mem, block);
  }

  // The merged block ends where the second one did.
  lemma MergeSize(mem: Mem, ring: seq<Addr>, base: Addr, end: Addr, j: nat)
    requires Tiled(mem, ring, base, end) && 1 <= j && j + 1 < |ring|
    ensures ring[j] in mem && ring[j + 1] in mem && mem[ring[j]].next in mem && ring[j] in Merge(mem, ring[j])
    ensures var b, c, mem' := ring[j], ring[j + 1], Merge(mem, ring[j]);
            mem'[b].size == mem[b].size + mem[c].size && mem'[b].used == mem[b].used && b + mem'[b].size == c + mem[c].size
  {
    MergeFacts(mem, ring, base, end, j);
    TileOf(mem, ring, base, end, j);
  }

  lemma HeadInUse(mem: Mem, ring: seq<Addr>, base: Addr, end: Addr)
    requires Tiled(mem, ring, base, end)
    ensures HEAD in mem && mem[HEAD].used == 1 && ring[0] == HEAD
  {}

  lemma StillHead(mem: Mem, ring: seq<Addr>, base: Addr, end: Addr)
    requires Tiled(mem, ring, base, end)
    ensures HEAD in mem && mem[HEAD].used == 1
  {}

  lemma NotLive(mem: Mem, b: Addr)
    requires b in mem && mem[b].used == 0
    ensures b !in Live(mem)
  {}

  lemma LiveIs(mem: Mem, b: Addr)
    requires b in Live(mem)
    ensures b in mem && b != HEAD && mem[b].used != 0
  {}

  lemma LiveSame(mem: Mem, b: Addr)
    requires b in Live(mem)
    ensures Live(mem) == Live(mem)[b := mem[b].size]
  {}

  lemma SplitKeepsUse(mem: Mem, ring: seq<Addr>, base: Addr, end: Addr, j: nat, size: nat)
    requires SplitOK(mem, ring, base, end, j, size)
    ensures var m := Split(mem, ring[j], size); ring[j] in m && Use(m, ring[j], mem[ring[j]].used, mem[ring[j]].tag) == m
  {
    SplitFacts(mem, ring, base, end, j, size);
    hide Tiled, Split;
  }

  lemma FreeNext(mem: Mem, ring: seq<Addr>, base: Addr, end: Addr, j: nat)
    requires Tiled(mem, ring, base, end) && 1 <= j < |ring| && ring[j] in mem && mem[ring[j]].next in mem &&
             mem[mem[ring[j]].next].used == 0
    ensures j + 1 < |ring| && mem[ring[j]].next == ring[j + 1]
  {
    LinkOf(mem, ring, base, end, j);
  }

  lemma NotSmall(mem: Mem, ring: seq<Addr>, base: Addr, end: Addr, b: Addr)
    requires Tiled(mem, ring, base, end) && b in mem && b != HEAD
    ensures mem[b].size >= MIN_BLOCK
  {
    var j := IndexOf(mem, ring, base, end, b);
    TileOf(mem, ring, base, end, j);
  }

  lemma NothingFits(mem: Mem, need: nat)
    requires mem.Keys == {HEAD}
    ensures forall a :: !Fits(mem, a, need)
  {}

  lemma TooLarge(mem: Mem, ring: seq<Addr>, base: Addr, size: nat, need: nat)
    requires Tiled(mem, ring, base, base + size) && need > size
    ensures forall a :: !Fits(mem, a, need)
  {
    forall a | Fits(mem, a, need) ensures false {
      var j := IndexOf(mem, ring, base, base + size, a);
      Ends(mem, ring, base, base + size, j);
    }
  }

  // The search is not at its last block yet.
  lemma NotLast(mem: Mem, ring: seq<Addr>, base: Addr, end: Addr, s: nat, k: nat)
    requires Tiled(mem, ring, base, end) && s < |ring| && k < |ring|
    requires ring[s] in mem && ring[Wrap(s + k, |ring|)] != mem[ring[s]].prev
    ensures k + 1 < |ring| && Succ(Wrap(s + k, |ring|), |ring|) == Wrap(s + k + 1, |ring|)
  {
    Neighbours(mem, ring, base, end, s);
  }

  // All blocks but the one before the first have been looked at, and that one is in use.
  lemma SearchedAll(mem: Mem, ring: seq<Addr>, base: Addr, end: Addr, s: nat, k: nat, need: nat)
    requires Tiled(mem, ring, base, end) && s < |ring| && k < |ring| && ring[s] in mem &&
             ring[Wrap(s + k, |ring|)] == mem[ring[s]].prev
    requires mem[ring[s]].prev in mem && mem[mem[ring[s]].prev].used != 0
    requires forall q {:trigger Passed(mem, ring, need, s, q)} :: 0 <= q < k ==> Passed(mem, ring, need, s, q)
    ensures forall a :: !Fits(mem, a, need)
  {
    var n := |ring|;
    Neighbours(mem, ring, base, end, s);
    if Wrap(s + k, n) != Pred(s, n) { Unique(mem, ring, base, end, Wrap(s + k, n), Pred(s, n)); }
    forall a | a in mem ensures !Fits(mem, a, need) {
      var j := IndexOf(mem, ring, base, end, a);
      var q := if j >= s then j - s else j + n - s;
      if q < k { assert Passed(mem, ring, need, s, q); }
    }
  }

  // Both neighbours of a free block are in use.
  lemma FreeNeighbours(mem: Mem, ring: seq<Addr>, base: Addr, end: Addr, j: nat)
    requires Tiled(mem, ring, base, end) && Apart(mem) && 1 <= j < |ring| && ring[j] in mem && mem[ring[j]].used == 0
    ensures ring[j] != HEAD && mem[ring[j]].next in mem && mem[mem[ring[j]].next].used != 0
  {
    assert ApartAt(mem, ring[j]);
    Ends(mem, ring, base, end, j);
  }

  lemma FreePrev(mem: Mem, ring: seq<Addr>, base: Addr, end: Addr, j: nat)
    requires Tiled(mem, ring, base, end) && 1 <= j < |ring| && ring[j] in mem && mem[ring[j]].prev in mem &&
             mem[mem[ring[j]].prev].used == 0
    ensures j > 1 && mem[ring[j]].prev == ring[j - 1]
  {
    Neighbours(mem, ring, base, end, j);
  }
}
