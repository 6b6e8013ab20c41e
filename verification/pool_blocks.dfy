// The blocks of a memory pool (src/memory/memory_pool.c): a circular list of headers that lie one
// behind the other in the pool's buffer.
module PoolBlocks {
  import opened BitMasks

  type Addr = nat

  // ----- BLOCK_SIZE -----

  // sizeof(block_head_t) and sizeof(guard_t) in a release build with 64-bit pointers
  const HEADER: nat := 40
  const GUARD: nat := 4
  const ALIGNMENT: nat := 16
  const MIN_ALLOC: nat := 8
  const WORD: nat := 0x1_0000_0000_0000_0000

  lemma OnesFour()
    ensures Ones(4) == 15
  {}

  lemma OnesSixty()
    ensures Ones(60) == WORD / 16 - 1
  {
    hide Ones;
    OnesFour();
    OnesAdd(4, 4);
    OnesAdd(8, 8);
    OnesAdd(16, 16);
    OnesAdd(32, 16);
    OnesAdd(48, 8);
    OnesAdd(56, 4);
  }

  // '+' binds tighter than '&', so the mask is '~(BLOCK_ALIGNMENT - 1) + MEMORY_GUARD_SIZE', on size_t.
  const MASK: nat := WORD - ALIGNMENT + GUARD

  // It clears the bits 0, 1 and 3.
  lemma MaskClears(q: nat, b0: nat, b1: nat, b2: nat, b3: nat)
    requires 16 * q + 8 * b3 + 4 * b2 + 2 * b1 + b0 < WORD && b0 < 2 && b1 < 2 && b2 < 2 && b3 < 2
    ensures And(16 * q + 8 * b3 + 4 * b2 + 2 * b1 + b0, MASK) == 16 * q + 4 * b2
  {
    hide And, Ones;
    OnesSixty();
    AndOnes(q, 60);
    var o := Ones(60);
    AndBit(q, o, b3, 0);
    AndBit(2 * q + b3, 2 * o, b2, 1);
    AndBit(4 * q + 2 * b3 + b2, 4 * o + 1, b1, 0);
    AndBit(8 * q + 4 * b3 + 2 * b2 + b1, 8 * o + 2, b0, 0);
  }

  lemma Half(x: nat) returns (h: nat, b: nat)
    ensures x == 2 * h + b && b < 2
  {
    h, b := x / 2, x % 2;
  }

  lemma MaskBounds(x: nat)
    requires x < WORD
    ensures And(x, MASK) <= x < And(x, MASK) + 12 && And(x, MASK) % 4 == 0
  {
    hide And;
    var h, b0 := Half(x);
    var h1, b1 := Half(h);
    var h2, b2 := Half(h1);
    var q, b3 := Half(h2);
    MaskClears(q, b0, b1, b2, b3);
  }

  // BLOCK_SIZE, for headers of any size
  function BlockSizeOf(header: nat, sz: nat): nat { And((sz + header + ALIGNMENT) % WORD, MASK) }

  function BlockSize(sz: nat): nat { BlockSizeOf(HEADER, sz) }

  // What pool_malloc and pool_realloc take for a request.
  function NeededOf(header: nat, sz: nat): nat {
    var least := BlockSizeOf(header, MIN_ALLOC);
    if BlockSizeOf(header, sz) < least then least else BlockSizeOf(header, sz)
  }

  const MIN_BLOCK: nat := 64
  const MIN_POOL: nat := 256

  function Needed(sz: nat): nat { if BlockSize(sz) < MIN_BLOCK then MIN_BLOCK else BlockSize(sz) }

  lemma MinBlockIs()
    ensures MIN_BLOCK == BlockSize(MIN_ALLOC) && MIN_POOL == 4 * MIN_BLOCK
    ensures forall sz :: Needed(sz) == NeededOf(HEADER, sz)
  {
    MaskClears(4, 0, 0, 0, 0);
  }

  // Header, payload and guard fit exactly if the sum does not wrap around, whatever the header's size.
  lemma FitsExactly(header: nat, sz: nat)
    requires sz < WORD && header + 64 <= WORD
    ensures header + sz + GUARD <= NeededOf(header, sz) <==> sz + header + ALIGNMENT < WORD
    ensures NeededOf(header, sz) % 4 == 0
  {
    hide And;
    MaskBounds((sz + header + ALIGNMENT) % WORD);
    MaskBounds((MIN_ALLOC + header + ALIGNMENT) % WORD);
  }

  lemma NeededFits(sz: nat)
    requires sz < WORD
    ensures HEADER + sz + GUARD <= Needed(sz) <==> sz + HEADER + ALIGNMENT < WORD
    ensures Needed(sz) % 4 == 0 && (sz + HEADER + ALIGNMENT < WORD ==> Needed(sz) <= sz + HEADER + ALIGNMENT || Needed(sz) == MIN_BLOCK)
  {
    MinBlockIs();
    FitsExactly(HEADER, sz);
    MaskBounds((sz + HEADER + ALIGNMENT) % WORD);
  }

  // The requests that wrap around are met by the smallest block there is.
  lemma WrappedRequest(sz: nat)
    requires sz < WORD <= sz + HEADER + ALIGNMENT
    ensures Needed(sz) == MIN_BLOCK < sz
  {
    MaskBounds(sz + HEADER + ALIGNMENT - WORD);
  }

  // SIZE_MAX bytes are given a block with room for 20.
  lemma LargestRequest()
    ensures Needed(WORD - 1) == MIN_BLOCK && MIN_BLOCK - HEADER - GUARD == 20
    ensures HEADER + (WORD - 1) + GUARD > Needed(WORD - 1)
  {
    WrappedRequest(WORD - 1);
  }

  // ----- headers -----

  // used is 0 for a free block, 1 for the head of the list.
  datatype Block = Block(used: nat, tag: int, size: nat, prev: Addr, next: Addr)

  type Mem = map<Addr, Block>

  // The address of pool->head, which lies outside the buffer, stands for all that is no block.
  const HEAD: Addr := 0

  function Succ(j: nat, n: nat): nat { if j + 1 == n then 0 else j + 1 }

  function Pred(j: nat, n: nat): nat
    requires j < n
  {
    if j == 0 then n - 1 else j - 1
  }

  // ring: the head and then all blocks in list order, which is address order.
  ghost predicate LinkAt(mem: Mem, ring: seq<Addr>, j: nat) {
    j < |ring| && ring[j] in mem && mem[ring[j]].next == ring[Succ(j, |ring|)] &&
    mem[ring[j]].prev == ring[Pred(j, |ring|)]
  }

  function EndOf(ring: seq<Addr>, end: Addr, j: nat): Addr { if j + 1 < |ring| then ring[j + 1] else end }

  ghost predicate TileAt(mem: Mem, ring: seq<Addr>, end: Addr, j: nat) {
    j < |ring| && ring[j] in mem && mem[ring[j]].size >= MIN_BLOCK && ring[j] + mem[ring[j]].size == EndOf(ring, end, j)
  }

  // No two neighbours are free.
  ghost predicate ApartAt(mem: Mem, a: Addr) {
    a in mem && mem[a].next in mem && (mem[a].used != 0 || mem[mem[a].next].used != 0)
  }

  // The headers tile the buffer from base to end.
  ghost predicate Tiled(mem: Mem, ring: seq<Addr>, base: Addr, end: Addr) {
    |ring| >= 2 && ring[0] == HEAD && ring[1] == base && base > 0 && (forall a :: a in mem <==> a in ring) &&
    HEAD in mem && mem[HEAD].used == 1 && mem[HEAD].size == 0 &&
    (forall j {:trigger LinkAt(mem, ring, j)} :: 0 <= j < |ring| ==> LinkAt(mem, ring, j)) &&
    forall j {:trigger TileAt(mem, ring, end, j)} :: 1 <= j < |ring| ==> TileAt(mem, ring, end, j)
  }

  ghost predicate Apart(mem: Mem) {
    forall a {:trigger ApartAt(mem, a)} :: a in mem ==> ApartAt(mem, a)
  }

  // ----- what tiling means -----

  lemma {:induction false} InOrder(mem: Mem, ring: seq<Addr>, base: Addr, end: Addr, i: nat, j: nat)
    requires Tiled(mem, ring, base, end) && 1 <= i < j < |ring|
    ensures ring[i] in mem && ring[i] + mem[ring[i]].size <= ring[j] && ring[i] < ring[j]
    decreases j - i
  {
    assert TileAt(mem, ring, end, i);
    if i + 1 < j {
      InOrder(mem, ring, base, end, i + 1, j);
      assert TileAt(mem, ring, end, i + 1);
    }
  }

  lemma {:induction false} Ends(mem: Mem, ring: seq<Addr>, base: Addr, end: Addr, i: nat)
    requires Tiled(mem, ring, base, end) && 1 <= i < |ring|
    ensures ring[i] in mem && base <= ring[i] && ring[i] + mem[ring[i]].size <= end && ring[i] > 0
    decreases |ring| - i
  {
    assert TileAt(mem, ring, end, i);
    if i > 1 { InOrder(mem, ring, base, end, 1, i); }
    if i + 1 < |ring| {
      Ends(mem, ring, base, end, i + 1);
      assert TileAt(mem, ring, end, i + 1);
    }
  }

  lemma LinkOf(mem: Mem, ring: seq<Addr>, base: Addr, end: Addr, i: nat)
    requires Tiled(mem, ring, base, end) && i < |ring|
    ensures LinkAt(mem, ring, i)
  {}

  lemma TileOf(mem: Mem, ring: seq<Addr>, base: Addr, end: Addr, i: nat)
    requires Tiled(mem, ring, base, end) && 1 <= i < |ring|
    ensures TileAt(mem, ring, end, i)
  {}

  lemma Unique(mem: Mem, ring: seq<Addr>, base: Addr, end: Addr, i: nat, j: nat)
    requires Tiled(mem, ring, base, end) && i < |ring| && j < |ring| && i != j
    ensures ring[i] != ring[j]
  {
    var a, b := if i < j then i else j, if i < j then j else i;
    if a == 0 { Ends(mem, ring, base, end, b); } else { InOrder(mem, ring, base, end, a, b); }
  }

  lemma IndexOf(mem: Mem, ring: seq<Addr>, base: Addr, end: Addr, a: Addr) returns (j: nat)
    requires Tiled(mem, ring, base, end) && a in mem
    ensures j < |ring| && ring[j] == a && (a != HEAD <==> j > 0)
  {
    j :| 0 <= j < |ring| && ring[j] == a;
    if j > 0 { Ends(mem, ring, base, end, j); }
  }

  // Blocks do not overlap, and lie within the buffer.
  lemma Disjoint(mem: Mem, ring: seq<Addr>, base: Addr, end: Addr, a: Addr, b: Addr)
    requires Tiled(mem, ring, base, end) && a in mem && b in mem && a != HEAD && b != HEAD && a != b
    ensures a + mem[a].size <= b || b + mem[b].size <= a
    ensures base <= a && a + mem[a].size <= end && mem[a].size >= MIN_BLOCK
  {
    var i := IndexOf(mem, ring, base, end, a);
    var j := IndexOf(mem, ring, base, end, b);
    Ends(mem, ring, base, end, i);
    assert TileAt(mem, ring, end, i);
    if i < j { InOrder(mem, ring, base, end, i, j); } else { InOrder(mem, ring, base, end, j, i); }
  }

  // The bytes of all blocks from the j-th on that are (not) in use.
  ghost function Bytes(mem: Mem, ring: seq<Addr>, j: nat, inUse: bool): nat
    decreases |ring| - j
  {
    if j >= |ring| then 0
    else (if ring[j] in mem && (mem[ring[j]].used != 0) == inUse then mem[ring[j]].size else 0) + Bytes(mem, ring, j + 1, inUse)
  }

  lemma {:induction false} Conserved(mem: Mem, ring: seq<Addr>, base: Addr, end: Addr, j: nat)
    requires Tiled(mem, ring, base, end) && 1 <= j < |ring|
    ensures Bytes(mem, ring, j, true) + Bytes(mem, ring, j, false) == end - ring[j]
    decreases |ring| - j
  {
    assert TileAt(mem, ring, end, j);
    if j + 1 < |ring| { Conserved(mem, ring, base, end, j + 1); }
  }

  // ----- splitting -----

  // pool_split_block, on a block that is large enough
  function Split(mem: Mem, b: Addr, size: nat): Mem
    requires b in mem && size <= mem[b].size
  {
    var rest, nx := b + size, mem[b].next;
    var m1 := mem[b := mem[b].(size := size, next := rest)][rest := Block(0, 0, mem[b].size - size, b, nx)];
    if nx in m1 then m1[nx := m1[nx].(prev := rest)] else m1
  }

  ghost predicate SplitOK(mem: Mem, ring: seq<Addr>, base: Addr, end: Addr, j: nat, size: nat) {
    Tiled(mem, ring, base, end) && 1 <= j < |ring| && ring[j] in mem && MIN_BLOCK <= size && size + MIN_BLOCK <= mem[ring[j]].size
  }

  function SplitRing(ring: seq<Addr>, j: nat, size: nat): seq<Addr>
    requires j < |ring|
  {
    ring[..j + 1] + [ring[j] + size] + ring[j + 1..]
  }

  lemma SplitFacts(mem: Mem, ring: seq<Addr>, base: Addr, end: Addr, j: nat, size: nat)
    requires SplitOK(mem, ring, base, end, j, size)
    ensures var b := ring[j]; var rest, nx := b + size, mem[b].next; var mem' := Split(mem, b, size);
            rest !in mem && nx in mem && nx != b && rest != b && rest != nx && b != HEAD &&
            nx == ring[Succ(j, |ring|)] &&
            mem'.Keys == mem.Keys + {rest} && mem'[b] == mem[b].(size := size, next := rest) &&
            mem'[rest] == Block(0, 0, mem[b].size - size, b, nx) && mem'[nx] == mem[nx].(prev := rest) &&
            forall a :: a in mem && a != b && a != nx ==> mem'[a] == mem[a]
  {
    var b := ring[j];
    assert LinkAt(mem, ring, j) && TileAt(mem, ring, end, j);
    Unique(mem, ring, base, end, j, Succ(j, |ring|));
    Ends(mem, ring, base, end, j);
    assert ring[Succ(j, |ring|)] in ring;
    NotABlock(mem, ring, base, end, j, b + size);
    hide Tiled;
  }

  lemma NotABlock(mem: Mem, ring: seq<Addr>, base: Addr, end: Addr, j: nat, a: Addr)
    requires Tiled(mem, ring, base, end) && 1 <= j < |ring| && ring[j] in mem &&
             ring[j] < a < ring[j] + mem[ring[j]].size
    ensures a !in mem
  {
    if a in mem {
      var i := IndexOf(mem, ring, base, end, a);
      if i > 0 {
        if i < j { InOrder(mem, ring, base, end, i, j); } else if i > j { InOrder(mem, ring, base, end, j, i); }
      }
    }
  }

  lemma SplitTiled(mem: Mem, ring: seq<Addr>, base: Addr, end: Addr, j: nat, size: nat)
    requires SplitOK(mem, ring, base, end, j, size)
    ensures Tiled(Split(mem, ring[j], size), SplitRing(ring, j, size), base, end)
  {
    hide LinkAt, TileAt, Split, SplitRing;
    SplitFacts(mem, ring, base, end, j, size);
    var mem', ring' := Split(mem, ring[j], size), SplitRing(ring, j, size);
    SplitRingIs(ring, j, size);
    forall i | 0 <= i < |ring'| ensures LinkAt(mem', ring', i) {
      SplitLink(mem, ring, base, end, j, size, i);
    }
    forall i | 1 <= i < |ring'| ensures TileAt(mem', ring', end, i) {
      SplitTile(mem, ring, base, end, j, size, i);
    }
  }

  lemma SplitRingIs(ring: seq<Addr>, j: nat, size: nat)
    requires j < |ring|
    ensures var ring' := SplitRing(ring, j, size);
            |ring'| == |ring| + 1 && (forall i :: 0 <= i <= j ==> ring'[i] == ring[i]) &&
            ring'[j + 1] == ring[j] + size &&
            (forall i :: j + 1 < i < |ring'| ==> ring'[i] == ring[i - 1]) &&
            forall a :: a in ring' <==> a in ring || a == ring[j] + size
  {
    assert ring == ring[..j + 1] + ring[j + 1..];
  }

  lemma SplitLink(mem: Mem, ring: seq<Addr>, base: Addr, end: Addr, j: nat, size: nat, i: nat)
    requires SplitOK(mem, ring, base, end, j, size) && i <= |ring|
    ensures LinkAt(Split(mem, ring[j], size), SplitRing(ring, j, size), i)
  {
    hide Tiled, Split, SplitRing;
    SplitFacts(mem, ring, base, end, j, size);
    SplitRingIs(ring, j, size);
    var n := |ring|;
    var was := if i <= j then i else if i == j + 1 then j else i - 1;
    LinkOf(mem, ring, base, end, was);
    LinkOf(mem, ring, base, end, j);
    if was != j { Unique(mem, ring, base, end, was, j); }
    if was != Succ(j, n) { Unique(mem, ring, base, end, was, Succ(j, n)); }
    SplitLinkAt(mem, Split(mem, ring[j], size), ring, SplitRing(ring, j, size), j, size, i, was);
  }

  lemma SplitLinkAt(mem: Mem, mem': Mem, ring: seq<Addr>, ring': seq<Addr>, j: nat, size: nat, i: nat, was: nat)
    requires 1 <= j < |ring| && i <= |ring| && |ring'| == |ring| + 1 &&
             was == if i <= j then i else if i == j + 1 then j else i - 1
    requires (forall k :: 0 <= k <= j ==> ring'[k] == ring[k]) && ring'[j + 1] == ring[j] + size &&
             forall k :: j + 1 < k < |ring'| ==> ring'[k] == ring[k - 1]
    requires LinkAt(mem, ring, was) && LinkAt(mem, ring, j) && (was != j ==> ring[was] != ring[j]) &&
             (was != Succ(j, |ring|) ==> ring[was] != ring[Succ(j, |ring|)])
    requires var b := ring[j]; var rest, nx := b + size, mem[b].next;
             rest !in mem && nx in mem && nx != b && rest != b && rest != nx && nx == ring[Succ(j, |ring|)] &&
             mem'.Keys == mem.Keys + {rest} &&
             mem'[b].next == rest && mem'[b].prev == mem[b].prev && mem'[rest].prev == b && mem'[rest].next == nx &&
             mem'[nx].prev == rest && mem'[nx].next == mem[nx].next && forall a :: a in mem && a != b && a != nx ==> mem'[a] == mem[a]
    ensures LinkAt(mem', ring', i)
  {
    var n := |ring|;
    assert ring'[Succ(i, n + 1)] == if i < j then ring[i + 1] else if i == j then ring[j] + size else ring[Succ(was, n)];
    assert ring'[Pred(i, n + 1)] == if i == 0 then (if j + 1 == n then ring[j] + size else ring[n - 1])
                                    else if i <= j then ring[i - 1] else if i == j + 1 then ring[j] else if i == j + 2 then ring[j] + size else ring[i - 2];
  }

  lemma SplitTile(mem: Mem, ring: seq<Addr>, base: Addr, end: Addr, j: nat, size: nat, i: nat)
    requires SplitOK(mem, ring, base, end, j, size) && 1 <= i <= |ring|
    ensures TileAt(Split(mem, ring[j], size), SplitRing(ring, j, size), end, i)
  {
    hide Tiled, Split, SplitRing;
    SplitFacts(mem, ring, base, end, j, size);
    SplitRingIs(ring, j, size);
    var was := if i <= j then i else if i == j + 1 then j else i - 1;
    TileOf(mem, ring, base, end, was);
    TileOf(mem, ring, base, end, j);
    if was != j { Unique(mem, ring, base, end, was, j); }
  }

  // ----- merging -----

  // A block takes over the one behind it.
  function Merge(mem: Mem, b: Addr): Mem
    requires b in mem && mem[b].next in mem
  {
    var c := mem[b].next;
    var nx := mem[c].next;
    var m1 := mem[b := mem[b].(size := mem[b].size + mem[c].size, next := nx)];
    (if nx in m1 then m1[nx := m1[nx].(prev := b)] else m1) - {c}
  }

  function MergeRing(ring: seq<Addr>, j: nat): seq<Addr>
    requires j + 1 < |ring|
  {
    ring[..j + 1] + ring[j + 2..]
  }

  lemma MergeFacts(mem: Mem, ring: seq<Addr>, base: Addr, end: Addr, j: nat)
    requires Tiled(mem, ring, base, end) && 1 <= j && j + 1 < |ring|
    ensures var b, c := ring[j], ring[j + 1];
            b in mem && c in mem && mem[b].next == c && b != HEAD && c != HEAD && b != c &&
            var nx, mem' := mem[c].next, Merge(mem, b);
            nx in mem && nx == ring[Succ(j + 1, |ring|)] && nx != b && nx != c && mem'.Keys == mem.Keys - {c} &&
            mem'[b] == mem[b].(size := mem[b].size + mem[c].size, next := nx) && mem'[nx] == mem[nx].(prev := b) &&
            forall a :: a in mem && a != b && a != c && a != nx ==> mem'[a] == mem[a]
  {
    assert LinkAt(mem, ring, j) && LinkAt(mem, ring, j + 1);
    Unique(mem, ring, base, end, j, j + 1);
    Unique(mem, ring, base, end, j, Succ(j + 1, |ring|));
    Unique(mem, ring, base, end, j + 1, Succ(j + 1, |ring|));
    Unique(mem, ring, base, end, 0, j);
    Unique(mem, ring, base, end, 0, j + 1);
    assert ring[Succ(j + 1, |ring|)] in ring;
    hide Tiled;
  }

  lemma MergeRingIs(ring: seq<Addr>, j: nat)
    requires j + 1 < |ring|
    ensures var ring' := MergeRing(ring, j);
            |ring'| == |ring| - 1 && (forall i :: 0 <= i <= j ==> ring'[i] == ring[i]) &&
            forall i :: j < i < |ring'| ==> ring'[i] == ring[i + 1]
  {}

  lemma MergeMembers(mem: Mem, ring: seq<Addr>, base: Addr, end: Addr, j: nat)
    requires Tiled(mem, ring, base, end) && 1 <= j && j + 1 < |ring|
    ensures forall a :: a in MergeRing(ring, j) <==> a in ring && a != ring[j + 1]
  {
    MergeRingIs(ring, j);
    var ring' := MergeRing(ring, j);
    forall a | a in ring' ensures a in ring && a != ring[j + 1] {
      var i :| 0 <= i < |ring'| && ring'[i] == a;
      Unique(mem, ring, base, end, if i <= j then i else i + 1, j + 1);
    }
    forall a | a in ring && a != ring[j + 1] ensures a in ring' {
      var i :| 0 <= i < |ring| && ring[i] == a;
      assert ring'[if i <= j then i else i - 1] == a;
    }
    hide Tiled;
  }

  lemma MergeTiled(mem: Mem, ring: seq<Addr>, base: Addr, end: Addr, j: nat)
    requires Tiled(mem, ring, base, end) && 1 <= j && j + 1 < |ring|
    ensures ring[j] in mem && mem[ring[j]].next in mem && Tiled(Merge(mem, ring[j]), MergeRing(ring, j), base, end)
  {
    hide LinkAt, TileAt, Merge, MergeRing;
    MergeFacts(mem, ring, base, end, j);
    MergeMembers(mem, ring, base, end, j);
    MergeRingIs(ring, j);
    var mem', ring' := Merge(mem, ring[j]), MergeRing(ring, j);
    forall i | 0 <= i < |ring'| ensures LinkAt(mem', ring', i) {
      MergeLink(mem, ring, base, end, j, i);
    }
    forall i | 1 <= i < |ring'| ensures TileAt(mem', ring', end, i) {
      MergeTile(mem, ring, base, end, j, i);
    }
  }

  lemma MergeLink(mem: Mem, ring: seq<Addr>, base: Addr, end: Addr, j: nat, i: nat)
    requires Tiled(mem, ring, base, end) && 1 <= j && j + 1 < |ring| && i < |ring| - 1
    ensures ring[j] in mem && mem[ring[j]].next in mem && LinkAt(Merge(mem, ring[j]), MergeRing(ring, j), i)
  {
    MergeFacts(mem, ring, base, end, j);
    MergeRingIs(ring, j);
    var n := |ring|;
    var was := if i <= j then i else i + 1;
    assert LinkAt(mem, ring, was) && LinkAt(mem, ring, j) && LinkAt(mem, ring, j + 1);
    if was != j { Unique(mem, ring, base, end, was, j); }
    Unique(mem, ring, base, end, was, j + 1);
    if was != Succ(j + 1, n) { Unique(mem, ring, base, end, was, Succ(j + 1, n)); }
    hide Tiled, Merge, MergeRing;
  }

  lemma MergeTile(mem: Mem, ring: seq<Addr>, base: Addr, end: Addr, j: nat, i: nat)
    requires Tiled(mem, ring, base, end) && 1 <= j && j + 1 < |ring| && 1 <= i < |ring| - 1
    ensures ring[j] in mem && mem[ring[j]].next in mem && TileAt(Merge(mem, ring[j]), MergeRing(ring, j), end, i)
  {
    MergeFacts(mem, ring, base, end, j);
    MergeRingIs(ring, j);
    var was := if i <= j then i else i + 1;
    assert TileAt(mem, ring, end, was) && TileAt(mem, ring, end, j) && TileAt(mem, ring, end, j + 1);
    if was != j { Unique(mem, ring, base, end, was, j); }
    Unique(mem, ring, base, end, was, j + 1);
    hide Tiled, Merge, MergeRing;
  }

  // ----- changes of use -----

  // Whether a block is in use does not matter for the tiling.
  lemma SameTiles(mem: Mem, mem': Mem, ring: seq<Addr>, base: Addr, end: Addr, b: Addr)
    requires Tiled(mem, ring, base, end) && b in mem && b != HEAD && mem'.Keys == mem.Keys
    requires mem' == mem[b := mem'[b]] && mem'[b] == mem[b].(used := mem'[b].used, tag := mem'[b].tag)
    ensures Tiled(mem', ring, base, end)
  {
    forall i | 0 <= i < |ring| ensures LinkAt(mem', ring, i) { assert LinkAt(mem, ring, i); }
    forall i | 1 <= i < |ring| ensures TileAt(mem', ring, end, i) { assert TileAt(mem, ring, end, i); }
  }

  // The neighbours of a block.
  lemma Neighbours(mem: Mem, ring: seq<Addr>, base: Addr, end: Addr, j: nat)
    requires Tiled(mem, ring, base, end) && j < |ring|
    ensures var b := ring[j];
            b in mem && mem[b].next == ring[Succ(j, |ring|)] && mem[b].prev == ring[Pred(j, |ring|)] &&
            mem[b].next in mem && mem[b].prev in mem &&
            mem[b].next != b && mem[b].prev != b && mem[mem[b].next].prev == b && mem[mem[b].prev].next == b
    ensures j + 1 < |ring| ==> mem[ring[j]].next != HEAD
    ensures j > 1 ==> mem[ring[j]].prev != HEAD
    ensures forall a :: a in mem ==> (mem[a].next == ring[j] <==> a == mem[ring[j]].prev)
  {
    var n := |ring|;
    LinkOf(mem, ring, base, end, j);
    LinkOf(mem, ring, base, end, Succ(j, n));
    LinkOf(mem, ring, base, end, Pred(j, n));
    Unique(mem, ring, base, end, j, Succ(j, n));
    Unique(mem, ring, base, end, j, Pred(j, n));
    if j + 1 < n { Unique(mem, ring, base, end, 0, j + 1); }
    if j > 1 { Unique(mem, ring, base, end, 0, j - 1); }
    assert ring[Succ(j, n)] in ring && ring[Pred(j, n)] in ring;
    forall a | a in mem && mem[a].next == ring[j] ensures a == mem[ring[j]].prev {
      var i := IndexOf(mem, ring, base, end, a);
      LinkOf(mem, ring, base, end, i);
      if Succ(i, n) != j { Unique(mem, ring, base, end, Succ(i, n), j); }
    }
    hide Tiled;
  }

  // All pairs of neighbours are fine that x has no part in.
  ghost predicate ApartBut(mem: Mem, x: Addr) {
    forall a {:trigger ApartAt(mem, a)} :: a in mem && a != x && mem[a].next != x ==> ApartAt(mem, a)
  }

  ghost function Live(mem: Mem): map<Addr, nat> { map a | a in mem && a != HEAD && mem[a].used != 0 :: mem[a].size }

  // pool_free, first step
  lemma NowFree(mem: Mem, mem': Mem, ring: seq<Addr>, base: Addr, end: Addr, b: Addr)
    requires Tiled(mem, ring, base, end) && Apart(mem) && b in mem && b != HEAD && mem[b].used != 0 &&
             mem' == mem[b := mem[b].(used := 0)]
    ensures Tiled(mem', ring, base, end) && ApartBut(mem', b) && Live(mem') == Live(mem) - {b}
  {
    SameTiles(mem, mem', ring, base, end, b);
    forall a | a in mem' && a != b && mem'[a].next != b ensures ApartAt(mem', a) { assert ApartAt(mem, a); }
    hide Tiled;
  }

  // A free block takes over the free block behind it.
  lemma Joined(mem: Mem, ring: seq<Addr>, base: Addr, end: Addr, j: nat)
    requires Tiled(mem, ring, base, end) && 1 <= j && j + 1 < |ring| && ring[j] in mem && ring[j + 1] in mem
    requires mem[ring[j]].used == 0 && mem[ring[j + 1]].used == 0
    ensures mem[ring[j]].next in mem && Tiled(Merge(mem, ring[j]), MergeRing(ring, j), base, end) &&
            Live(Merge(mem, ring[j])) == Live(mem)
    ensures var b, c, mem' := ring[j], ring[j + 1], Merge(mem, ring[j]);
            b in mem' && mem[b].next == c && c in mem && c != b && mem'.Keys == mem.Keys - {c} && mem'[b].used == 0 &&
            mem'[b].next == mem[c].next && mem'[b].prev == mem[b].prev && mem'[b].size == mem[b].size + mem[c].size
    ensures var b, c, mem' := ring[j], ring[j + 1], Merge(mem, ring[j]);
            forall a :: a in mem' ==> a in mem && mem'[a].used == mem[a].used && (a != b ==> mem'[a].next == mem[a].next && mem'[a].size == mem[a].size)
  {
    MergeTiled(mem, ring, base, end, j);
    MergeFacts(mem, ring, base, end, j);
    hide Tiled, Merge, MergeRing;
  }

  // The free block behind x is joined to it; the block after that one is in use.
  lemma JoinedNext(mem: Mem, ring: seq<Addr>, base: Addr, end: Addr, j: nat)
    requires Tiled(mem, ring, base, end) && 1 <= j && j + 1 < |ring| && ring[j] in mem && ring[j + 1] in mem &&
             ApartBut(mem, ring[j])
    requires mem[ring[j]].used == 0 && mem[ring[j + 1]].used == 0
    ensures mem[ring[j]].next in mem
    ensures var b, mem' := ring[j], Merge(mem, ring[j]);
            ApartBut(mem', b) && b in mem' && mem'[b].next in mem' && mem'[mem'[b].next].used != 0 && mem'[b].next != b
  {
    hide Tiled, Merge, MergeRing;
    var b, c := ring[j], ring[j + 1];
    Joined(mem, ring, base, end, j);
    MergeFacts(mem, ring, base, end, j);
    Neighbours(mem, ring, base, end, j);
    Neighbours(mem, ring, base, end, j + 1);
    assert mem[c].next != b by { ThreeApart(mem, ring, base, end, j); }
    assert ApartAt(mem, c);
    var mem' := Merge(mem, b);
    forall a | a in mem' && a != b && mem'[a].next != b ensures ApartAt(mem', a) {
      assert ApartAt(mem, a);
      assert mem[a].next != c;
    }
  }

  // Behind the successor of a block is another one, since the head is in the ring too.
  lemma ThreeApart(mem: Mem, ring: seq<Addr>, base: Addr, end: Addr, j: nat)
    requires Tiled(mem, ring, base, end) && 1 <= j && j + 1 < |ring|
    ensures ring[j + 1] in mem && mem[ring[j + 1]].next != ring[j]
  {
    LinkOf(mem, ring, base, end, j + 1);
    Unique(mem, ring, base, end, j, Succ(j + 1, |ring|));
    hide Tiled;
  }

  // A free block with the next one in use is joined to the free block before it.
  lemma JoinedPrev(mem: Mem, ring: seq<Addr>, base: Addr, end: Addr, j: nat)
    requires Tiled(mem, ring, base, end) && 1 <= j && j + 1 < |ring| && ring[j] in mem && ring[j + 1] in mem &&
             ApartBut(mem, ring[j + 1])
    requires mem[ring[j]].used == 0 && mem[ring[j + 1]].used == 0 && mem[ring[j + 1]].next in mem &&
             mem[mem[ring[j + 1]].next].used != 0
    ensures mem[ring[j]].next in mem
    ensures var b, mem' := ring[j], Merge(mem, ring[j]); Apart(mem') && b in mem' && mem'[b].prev in mem' && mem'[mem'[b].prev].used != 0
  {
    hide Tiled, Merge, MergeRing;
    var b, c := ring[j], ring[j + 1];
    Joined(mem, ring, base, end, j);
    MergeFacts(mem, ring, base, end, j);
    Neighbours(mem, ring, base, end, j);
    Neighbours(mem, ring, base, end, j + 1);
    var p := mem[b].prev;
    assert p != c by { ThreeBefore(mem, ring, base, end, j); }
    assert ApartAt(mem, p);
    var mem' := Merge(mem, b);
    forall a | a in mem' ensures ApartAt(mem', a) {
      if a != b {
        assert ApartAt(mem, a);
        assert mem[a].next != c;
      }
    }
  }

  lemma ThreeBefore(mem: Mem, ring: seq<Addr>, base: Addr, end: Addr, j: nat)
    requires Tiled(mem, ring, base, end) && 1 <= j && j + 1 < |ring|
    ensures ring[j] in mem && mem[ring[j]].prev != ring[j + 1]
  {
    LinkOf(mem, ring, base, end, j);
    Unique(mem, ring, base, end, j + 1, Pred(j, |ring|));
    hide Tiled;
  }

  // Nothing free before or behind a free block.
  lemma FreeAlone(mem: Mem, ring: seq<Addr>, base: Addr, end: Addr, j: nat)
    requires Tiled(mem, ring, base, end) && 1 <= j < |ring| && ring[j] in mem && ApartBut(mem, ring[j])
    requires mem[ring[j]].next in mem && mem[mem[ring[j]].next].used != 0 && mem[ring[j]].prev in mem &&
             mem[mem[ring[j]].prev].used != 0
    ensures Apart(mem)
  {
    Neighbours(mem, ring, base, end, j);
    hide Tiled;
    forall a | a in mem ensures ApartAt(mem, a) {
      if a != ring[j] && mem[a].next != ring[j] { assert ApartAt(mem, a); }
    }
  }

  function Use(mem: Mem, b: Addr, used: nat, tag: int): Mem
    requires b in mem
  {
    mem[b := mem[b].(used := used, tag := tag)]
  }

  // A block that is taken whole.
  lemma WholeUse(mem: Mem, ring: seq<Addr>, base: Addr, end: Addr, b: Addr, used: nat, tag: int)
    requires Tiled(mem, ring, base, end) && Apart(mem) && b in mem && b != HEAD && used != 0
    ensures var mem' := Use(mem, b, used, tag); Tiled(mem', ring, base, end) && Apart(mem') && Live(mem') == Live(mem)[b := mem[b].size]
  {
    var mem' := Use(mem, b, used, tag);
    SameTiles(mem, mem', ring, base, end, b);
    hide Tiled;
    forall a | a in mem' ensures ApartAt(mem', a) { assert ApartAt(mem, a); }
  }

  // A split, after which the first part is in use.
  lemma SplitUse(mem: Mem, ring: seq<Addr>, base: Addr, end: Addr, j: nat, size: nat, used: nat, tag: int)
    requires SplitOK(mem, ring, base, end, j, size) && used != 0
    ensures ring[j] in Split(mem, ring[j], size)
    ensures var b := ring[j]; var rest, mem' := b + size, Use(Split(mem, b, size), b, used, tag);
            Tiled(mem', SplitRing(ring, j, size), base, end) && Live(mem') == Live(mem)[b := size] && b != HEAD &&
            rest != HEAD && b != rest &&
            rest !in mem && rest in mem' && mem'[b].next == rest && mem'[rest].prev == b && mem'[rest].used == 0 &&
            mem'[b].size == size &&
            mem[b].next in mem && mem'[rest].next == mem[b].next && mem'.Keys == mem.Keys + {rest} &&
            mem'[b].used == used && mem'[b].tag == tag
    ensures var b := ring[j]; var rest, mem' := b + size, Use(Split(mem, b, size), b, used, tag);
            forall a :: a in mem && a != b ==> mem'[a].used == mem[a].used && mem'[a].next == mem[a].next && mem'[a].size == mem[a].size && mem[a].next != rest
  {
    hide Tiled, Split, SplitRing;
    var b := ring[j];
    SplitFacts(mem, ring, base, end, j, size);
    SplitTiled(mem, ring, base, end, j, size);
    RestIsBlock(mem, ring, base, end, j, size);
    SameTiles(Split(mem, b, size), Use(Split(mem, b, size), b, used, tag), SplitRing(ring, j, size), base, end, b);
  }

  lemma SplitApart(mem: Mem, ring: seq<Addr>, base: Addr, end: Addr, j: nat, size: nat, used: nat, tag: int)
    requires SplitOK(mem, ring, base, end, j, size) && used != 0 && Apart(mem)
    ensures ring[j] in Split(mem, ring[j], size) && mem[ring[j]].next in mem
    ensures var mem' := Use(Split(mem, ring[j], size), ring[j], used, tag);
            ApartBut(mem', ring[j] + size) && (mem[mem[ring[j]].next].used != 0 ==> Apart(mem'))
  {
    hide Tiled, Split, SplitRing, Use;
    var b := ring[j];
    var rest := b + size;
    SplitUse(mem, ring, base, end, j, size, used, tag);
    var mem' := Use(Split(mem, b, size), b, used, tag);
    forall a | a in mem' && a != rest ensures ApartAt(mem', a) {
      if a != b { assert ApartAt(mem, a); }
    }
    if mem[mem[b].next].used != 0 { assert ApartAt(mem', rest) by { NextIsOther(mem, ring, base, end, j); } }
  }

  lemma NextIsOther(mem: Mem, ring: seq<Addr>, base: Addr, end: Addr, j: nat)
    requires Tiled(mem, ring, base, end) && j < |ring|
    ensures ring[j] in mem && mem[ring[j]].next in mem && mem[ring[j]].next != ring[j]
  {
    Neighbours(mem, ring, base, end, j);
    hide Tiled;
  }

  lemma RestIsBlock(mem: Mem, ring: seq<Addr>, base: Addr, end: Addr, j: nat, size: nat)
    requires SplitOK(mem, ring, base, end, j, size)
    ensures ring[j] != HEAD && ring[j] + size != HEAD && forall a :: a in mem ==> mem[a].next != ring[j] + size
  {
    hide Tiled, Split;
    Ends(mem, ring, base, end, j);
    SplitFacts(mem, ring, base, end, j, size);
    forall a | a in mem ensures mem[a].next in mem {
      var i := IndexOf(mem, ring, base, end, a);
      Neighbours(mem, ring, base, end, i);
    }
  }
}
