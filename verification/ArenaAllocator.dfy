/**
  * The arena allocator and its pool. Arenas are linked into chains through `next`: the chain of each
  * allocator and the pool's chain of free arenas. Memory handed out is always zero, although arenas are
  * recycled and only their used part is ever cleared.
  */
module Arenas {
  import opened Wrappers

  const DEFAULT_SIZE: nat := 64 * 1024
  const MAP_FAILED := -1

  function Align8(n: nat): (r: nat)
    ensures n <= r < n + 8 && r % 8 == 0
  {
    (n + 7) / 8 * 8
  }

  function Align16(n: nat): (r: nat)
    ensures n <= r < n + 16 && r % 16 == 0
  {
    (n + 15) / 16 * 16
  }

  function Max(a: nat, b: nat): nat { if a > b then a else b }

  function Zeroes(n: nat): seq<int> { seq(n, i => 0) }

  /** An arena is known by the address of its memory; 0 is the null pointer. */
  type Ptr = int

  datatype Arena = Arena(size: nat, bytes: seq<int>, bytesAllocated: nat, next: Ptr)

  type Heap = map<Ptr, Arena>

  function NewArena(size: nat): Arena { Arena(size, Zeroes(size), 0, 0) }

  /** Clears what was used. */
  function Reset(a: Arena): Arena
    requires a.bytesAllocated <= |a.bytes|
  {
    a.(bytes := Zeroes(a.bytesAllocated) + a.bytes[a.bytesAllocated..], bytesAllocated := 0)
  }

  /** Gives the pages of a used arena back to the kernel, which puts zero pages there. */
  function Release(a: Arena): Arena {
    if a.bytesAllocated > 0 then a.(bytes := Zeroes(a.size), bytesAllocated := 0) else a
  }

  /** Everything from `used` on is zero. */
  predicate Clean(a: Arena, used: int) {
    0 <= used <= a.size == |a.bytes| && forall i | used <= i < a.size :: a.bytes[i] == 0
  }

  lemma ResetCleans(a: Arena)
    requires Clean(a, a.bytesAllocated)
    ensures Clean(Reset(a), 0) && Clean(Release(a), 0) && Release(a).bytesAllocated == 0
    ensures Reset(a).bytes == Zeroes(a.size)
  {
  }

  // ----- chains

  function At(chain: seq<Ptr>, i: nat): Ptr {
    if i < |chain| then chain[i] else 0
  }

  /** Following `next` from `head` gives exactly the arenas of `chain`, each once, and ends. */
  ghost predicate Linked(h: Heap, head: Ptr, chain: seq<Ptr>) {
    && head == At(chain, 0)
    && (forall a | a in chain :: a != 0 && a in h)
    && (forall i, j | 0 <= i < j < |chain| :: chain[i] != chain[j])
    && forall i :: LinkAt(h, chain, i)
  }

  ghost predicate LinkAt(h: Heap, chain: seq<Ptr>, i: int) {
    0 <= i < |chain| && chain[i] in h ==> h[chain[i]].next == At(chain, i + 1)
  }

  lemma LinkedHead(h: Heap, head: Ptr, chain: seq<Ptr>)
    requires Linked(h, head, chain)
    ensures head == 0 <==> chain == []
    ensures head != 0 ==> head == chain[0] && head in chain && head in h
  {
    if chain != [] {
      assert chain[0] in chain;
    }
  }

  lemma LinkedFrame(h: Heap, k: Heap, head: Ptr, chain: seq<Ptr>)
    requires Linked(h, head, chain)
    requires forall a | a in chain :: a in k && k[a].next == h[a].next
    ensures Linked(k, head, chain)
  {
    forall i ensures LinkAt(k, chain, i) {
      assert LinkAt(h, chain, i);
      assert 0 <= i < |chain| ==> chain[i] in chain;
    }
  }

  lemma LinkedTail(h: Heap, head: Ptr, chain: seq<Ptr>)
    requires Linked(h, head, chain) && chain != []
    ensures head in h && Linked(h, h[head].next, chain[1..]) && chain[0] !in chain[1..]
  {
    var tail := chain[1..];
    assert chain[0] in chain && LinkAt(h, chain, 0);
    forall i ensures LinkAt(h, tail, i) {
      assert LinkAt(h, chain, i + 1);
      assert 0 <= i < |tail| ==> tail[i] == chain[i + 1];
    }
    assert forall a | a in tail :: a in chain;
  }

  /** Two chains without common arenas, the end of one pointing to the head of the other, are one. */
  lemma LinkedAppend(h: Heap, chain: seq<Ptr>, head: Ptr, rest: seq<Ptr>)
    requires chain != [] && Linked(h, head, rest)
    requires forall i, j | 0 <= i < j < |chain| :: chain[i] != chain[j]
    requires forall a | a in chain :: a != 0 && a in h
    requires forall i | 0 <= i < |chain| - 1 :: chain[i] in h && h[chain[i]].next == chain[i + 1]
    requires chain[|chain| - 1] in h && h[chain[|chain| - 1]].next == head
    requires forall a | a in rest :: a !in chain
    ensures Linked(h, chain[0], chain + rest)
  {
    var all := chain + rest;
    forall i, j | 0 <= i < j < |all| ensures all[i] != all[j] {
      if i < |chain| <= j {
        assert all[j] == rest[j - |chain|] && rest[j - |chain|] in rest && chain[i] in chain;
      }
    }
    forall i ensures LinkAt(h, all, i) {
      if |chain| <= i < |all| {
        assert LinkAt(h, rest, i - |chain|);
      }
    }
  }

  lemma LinkedJoin(h: Heap, first: Ptr, chain: seq<Ptr>, head: Ptr, rest: seq<Ptr>)
    requires Linked(h, first, chain) && Linked(h, head, rest) && chain != []
    requires forall a | a in rest :: a !in chain
    ensures
      var last := chain[|chain| - 1];
      Linked(h[last := h[last].(next := head)], first, chain + rest)
  {
    var last := chain[|chain| - 1];
    var k := h[last := h[last].(next := head)];
    LinkedFrame(h, k, head, rest);
    forall i | 0 <= i < |chain| - 1 ensures chain[i] in k && k[chain[i]].next == chain[i + 1] {
      assert LinkAt(h, chain, i) && chain[i] in chain;
    }
    LinkedAppend(k, chain, head, rest);
  }

  lemma LinkedPush(h: Heap, a: Ptr, chain: seq<Ptr>)
    requires a != 0 && a in h && Linked(h, h[a].next, chain) && a !in chain
    ensures Linked(h, a, [a] + chain)
  {
    LinkedAppend(h, [a], h[a].next, chain);
  }

  /** Mapped regions are aligned and do not overlap. */
  ghost predicate RegionsFit(h: Heap) {
    && (forall p | p in h :: h[p].size > 0 && p > 0 && p % 16 == 0)
    && forall p, q :: Below(h, p, q)
  }

  ghost predicate Below(h: Heap, p: Ptr, q: Ptr) {
    p in h && q in h && p < q ==> p + h[p].size <= q
  }

  lemma RegionsKept(h: Heap, k: Heap)
    requires RegionsFit(h) && forall p | p in k :: p in h && k[p].size == h[p].size
    ensures RegionsFit(k)
  {
    forall p, q ensures Below(k, p, q) {
      assert Below(h, p, q);
    }
  }

  /** mmap fails or gives memory apart from everything mapped so far. */
  ghost predicate MapFits(h: Heap, at: int, size: nat) {
    at == MAP_FAILED ||
    (at > 0 && at % 16 == 0 && size > 0 && forall p | p in h :: p + h[p].size <= at || at + size <= p)
  }

  /** Every arena is either in the acyclic chain of free arenas or lent, and what lies past the used part
      of a free arena is zero. */
  ghost predicate PoolFits(h: Heap, head: Ptr, free: seq<Ptr>, lent: set<Ptr>) {
    && Linked(h, head, free) && RegionsFit(h)
    && (forall a | a in free :: a !in lent && Clean(h[a], h[a].bytesAllocated))
    && (forall a | a in lent :: a in h)
    && (forall a | a in h :: a in free || a in lent)
  }

  lemma ChainFreed(h: Heap, first: Ptr, chain: seq<Ptr>, head: Ptr, free: seq<Ptr>, lent: set<Ptr>)
    requires PoolFits(h, head, free, lent) && Linked(h, first, chain) && chain != []
    requires forall a | a in chain :: a in lent && Clean(h[a], h[a].bytesAllocated)
    ensures
      var last := chain[|chain| - 1];
      PoolFits(h[last := h[last].(next := head)], first, chain + free, lent - (set a | a in chain))
  {
    var last := chain[|chain| - 1];
    var k := h[last := h[last].(next := head)];
    LinkedJoin(h, first, chain, head, free);
    RegionsKept(h, k);
    forall a | a in chain + free ensures a !in lent - (set a | a in chain) && Clean(k[a], k[a].bytesAllocated) {
      assert a in chain || a in free;
    }
  }

  lemma ArenaTaken(h: Heap, head: Ptr, free: seq<Ptr>, lent: set<Ptr>)
    requires PoolFits(h, head, free, lent) && head != 0
    ensures free != [] && head == free[0] && head in h && h[head].bytesAllocated <= |h[head].bytes|
    ensures Clean(Reset(h[head]), 0) && head !in lent && head > 0
    ensures PoolFits(h[head := Reset(h[head])], h[head].next, free[1..], lent + {head})
  {
    LinkedTail(h, head, free);
    assert head in free;
    ResetCleans(h[head]);
    var k := h[head := Reset(h[head])];
    LinkedFrame(h, k, h[head].next, free[1..]);
    RegionsKept(h, k);
    assert free == [head] + free[1..];
  }

  lemma ArenaMapped(h: Heap, head: Ptr, free: seq<Ptr>, lent: set<Ptr>, at: Ptr, size: nat)
    requires PoolFits(h, head, free, lent) && MapFits(h, at, size) && at != MAP_FAILED
    ensures at !in h && Clean(NewArena(size), 0)
    ensures PoolFits(h[at := NewArena(size)], head, free, lent + {at})
  {
    var k := h[at := NewArena(size)];
    forall p | p in h ensures p != at {
      assert h[p].size > 0;
    }
    LinkedFrame(h, k, head, free);
    ArenaAdded(h, at, size);
  }

  lemma PoolReleased(h: Heap, k: Heap, head: Ptr, free: seq<Ptr>, lent: set<Ptr>)
    requires PoolFits(h, head, free, lent) && k.Keys == h.Keys
    requires forall a | a in h :: k[a] == if a in free then Release(h[a]) else h[a]
    ensures PoolFits(k, head, free, lent)
    ensures forall a | a in free :: Clean(k[a], 0) && k[a].bytesAllocated == 0
  {
    LinkedFrame(h, k, head, free);
    RegionsKept(h, k);
    forall a | a in free ensures Clean(k[a], 0) && k[a].bytesAllocated == 0 {
      ResetCleans(h[a]);
    }
  }

  /** The distance of an aligned address to the next multiple of 16. */
  function Padding16(ptr: nat): nat {
    if ptr % 16 == 0 then 0 else 8
  }

  lemma PaddingAligns(ptr: nat)
    requires ptr % 8 == 0
    ensures Align16(ptr) - ptr == Padding16(ptr) && (ptr + Padding16(ptr)) % 16 == 0
  {
    var q := ptr / 8;
    assert ptr == 8 * q && (q % 2 == 0 ==> ptr == 16 * (q / 2)) && (q % 2 == 1 ==> ptr == 16 * (q / 2) + 8);
  }

  lemma AlignKeepsOrder(m: nat, n: nat)
    requires m <= n
    ensures Align8(m) <= Align8(n)
  {
  }

  lemma DifferenceOf8(m: nat, n: nat)
    requires m % 8 == 0 && n % 8 == 0
    ensures (m - n) % 8 == 0
  {
  }

  lemma SumOf8(m: nat, n: nat)
    requires m % 8 == 0 && n % 8 == 0
    ensures (m + n) % 8 == 0
  {
  }

  lemma MultipleOf8(n: nat)
    requires n % 16 == 0
    ensures n % 8 == 0
  {
  }

  /** Bytes copied into an arena. */
  function Splice(h: Heap, a: Ptr, offset: nat, data: seq<int>): Heap
    requires a in h && offset + |data| <= |h[a].bytes|
  {
    h[a := h[a].(bytes := h[a].bytes[..offset] + data + h[a].bytes[offset + |data|..])]
  }

  lemma EmptySplice(h: Heap, a: Ptr, offset: nat, data: seq<int>)
    requires a in h && offset <= |h[a].bytes| && data == []
    ensures Splice(h, a, offset, data) == h
  {
    assert h[a].bytes[..offset] + data + h[a].bytes[offset..] == h[a].bytes;
  }

  /** The pool, together with all arenas there are. */
  class MemMapArenaPool {
    var heap: Heap
    var freeArenas: Ptr
    ghost var free: seq<Ptr>
    ghost var lent: set<Ptr>  // the arenas that allocators hold

    constructor ()
      ensures Valid() && free == [] && lent == {} && heap == map[]
    {
      heap, freeArenas, free, lent := map[], 0, [], {};
    }

    ghost predicate Valid()
      reads this
    {
      PoolFits(heap, freeArenas, free, lent)
    }

    /** memcpy between two addresses, given in which arenas they are. */
    method Copy(q: int, p: int, size: nat, ghost target: Ptr, ghost source: Ptr, ghost data: seq<int>)
      requires RegionsFit(heap) && target in heap && source in heap
      requires 0 <= p - source && p - source + size <= |heap[source].bytes| == heap[source].size
      requires 0 <= q - target && q - target + size <= |heap[target].bytes| == heap[target].size
      requires data == heap[source].bytes[p - source..p - source + size]
      modifies this`heap
      ensures heap == Splice(old(heap), target, q - target, data)
    {
      if size == 0 {
        EmptySplice(heap, target, q - target, []);
        return;
      }
      var from := Locate(p);
      var to := Locate(q);
      assert Below(heap, from, source) && Below(heap, source, from);
      assert Below(heap, to, target) && Below(heap, target, to);
      heap := Splice(heap, to, q - to, heap[from].bytes[p - from..p - from + size]);
    }

    /** A store to an address, given in which arena it is. */
    method Poke(address: int, value: int, ghost target: Ptr)
      requires RegionsFit(heap) && target in heap && |heap[target].bytes| == heap[target].size
      requires target <= address < target + heap[target].size
      modifies this`heap
      ensures heap == Splice(old(heap), target, address - target, [value])
    {
      var a := Locate(address);
      assert Below(heap, a, target) && Below(heap, target, a);
      heap := Splice(heap, a, address - a, [value]);
    }

    /** The arena that holds an address. */
    method Locate(address: int) returns (a: Ptr)
      requires exists a :: a in heap && a <= address < a + heap[a].size
      ensures a in heap && a <= address < a + heap[a].size
    {
      a :| a in heap && a <= address < a + heap[a].size;
    }

    /** The first free arena when it is large enough, else a new one. It is all zero; its `next` may still point into the free chain. */
    method AllocArena(size: nat, at: int) returns (ret: Ptr)
      requires Valid() && size > 0 && MapFits(heap, at, size)
      modifies this
      ensures Valid()
      ensures
        var first := old(freeArenas);
        ret == if first in old(heap) && first != 0 && old(heap)[first].size >= size then first
               else if at == MAP_FAILED then 0 else at
      ensures ret in heap && ret !in old(heap) ==> heap[ret].size == size
      ensures ret == 0 ==>
        at == MAP_FAILED && free == old(free) && lent == old(lent) && heap == old(heap)
      ensures ret != 0 ==>
        && ret in heap && heap[ret].size >= size && heap[ret].bytesAllocated == 0 && Clean(heap[ret], 0)
        && ret !in old(lent) && ret > 0 && lent == old(lent) + {ret}
        && heap == old(heap)[ret := heap[ret]]
        && (if ret in old(heap) then [ret] + free == old(free) else free == old(free))
    {
      ret := 0;
      if freeArenas != 0 && heap[freeArenas].size >= size {
        ret := freeArenas;
        ArenaTaken(heap, freeArenas, free, lent);
        freeArenas := heap[freeArenas].next;
        free := free[1..];
      }
      if ret == 0 {
        if at == MAP_FAILED {
          return;
        }
        ret := at;
        ArenaMapped(heap, freeArenas, free, lent, at, size);
        heap := heap[ret := NewArena(size)];
      } else {
        heap := heap[ret := Reset(heap[ret])];
      }
      lent := lent + {ret};
    }

    /** Puts a whole chain in front of the free arenas. */
    method FreeArenaChain(first: Ptr, ghost chain: seq<Ptr>)
      requires Valid() && Linked(heap, first, chain)
      requires forall a | a in chain :: a in lent && Clean(heap[a], heap[a].bytesAllocated)
      modifies this
      ensures Valid() && free == chain + old(free) && lent == old(lent) - (set a | a in chain)
      ensures heap.Keys == old(heap).Keys
      ensures forall a | a in heap :: heap[a] == old(heap)[a].(next := heap[a].next)
      ensures forall a | a in heap && a !in chain :: heap[a] == old(heap)[a]
    {
      LinkedHead(heap, first, chain);
      if first == 0 {
        assert chain + free == free && lent - (set a | a in chain) == lent;
        return;
      }
      var last := LastOf(first, chain);
      ChainFreed(heap, first, chain, freeArenas, free, lent);
      heap := heap[last := heap[last].(next := freeArenas)];
      freeArenas := first;
      lent := lent - (set a | a in chain);
      free := chain + free;
    }

    method LastOf(first: Ptr, ghost chain: seq<Ptr>) returns (last: Ptr)
      requires Linked(heap, first, chain) && chain != []
      ensures last == chain[|chain| - 1]
    {
      last := first;
      ghost var i := 0;
      LinkedHead(heap, first, chain);
      while heap[last].next != 0
        invariant 0 <= i < |chain| && last == chain[i]
        decreases |chain| - i
      {
        assert LinkAt(heap, chain, i) && chain[i] in chain;
        last := heap[last].next;
        i := i + 1;
      }
      assert LinkAt(heap, chain, i) && chain[i] in chain;
      assert i + 1 == |chain| || At(chain, i + 1) in chain;
    }

    /** Clears every free arena and gives back its pages. */
    method TrimMaps()
      requires Valid()
      modifies this`heap
      ensures Valid() && heap.Keys == old(heap).Keys
      ensures forall a | a in free :: Clean(heap[a], 0) && heap[a].bytesAllocated == 0
      ensures forall a | a in lent :: heap[a] == old(heap)[a]
    {
      ghost var h, i, done := heap, 0, {};
      var arena := freeArenas;
      while arena != 0
        invariant 0 <= i <= |free| && arena == At(free, i)
        invariant heap.Keys == h.Keys
        invariant forall k | 0 <= k < |free| :: free[k] in done <==> k < i
        invariant forall a | a in done :: a in free
        invariant forall a | a in h :: heap[a] == if a in done then Release(h[a]) else h[a]
        decreases |free| - i
      {
        assert LinkAt(h, free, i) && free[i] in free;
        heap, done := heap[arena := Release(heap[arena])], done + {arena};
        arena := heap[arena].next;
        i := i + 1;
      }
      PoolReleased(h, heap, freeArenas, free, lent);
    }

    /** Unmaps every free arena. */
    method ReclaimMemory()
      requires Valid()
      modifies this
      ensures Valid() && free == [] && lent == old(lent)
      ensures heap.Keys == lent && forall a | a in lent :: heap[a] == old(heap)[a]
    {
      while freeArenas != 0
        invariant Valid() && lent == old(lent)
        invariant forall a | a in heap :: a in old(heap) && heap[a] == old(heap)[a]
        decreases |free|
      {
        LinkedTail(heap, freeArenas, free);
        var arena := freeArenas;
        ghost var before := heap;
        freeArenas := heap[freeArenas].next;
        free := free[1..];
        heap := heap - {arena};
        LinkedFrame(before, heap, freeArenas, free);
        RegionsKept(before, heap);
      }
      LinkedHead(heap, freeArenas, free);
      assert forall a | a in heap :: a in lent;
      assert forall a | a in lent :: a in heap;
    }
  }

  // ----- the allocator

  /** Memory handed out: its address and its size, rounded up to the alignment and not zero. A pointer to no
      bytes is nobody's memory. */
  datatype Block = Block(start: int, size: nat)

  predicate Apart(b: Block, c: Block) {
    b.start + b.size <= c.start || c.start + c.size <= b.start
  }

  predicate BlockFits(b: Block, a: Ptr, used: nat) {
    b.size > 0 && a <= b.start && b.start + b.size <= a + used && b.start % 8 == 0 && b.size % 8 == 0
  }

  /** Blocks lie in the used part of their arena, aligned, and do not overlap there. */
  ghost predicate BlocksFit(blocks: map<Block, Ptr>, used: map<Ptr, nat>) {
    && (forall b | b in blocks :: blocks[b] in used && BlockFits(b, blocks[b], used[blocks[b]]))
    && forall b, c :: Separate(blocks, b, c)
  }

  ghost predicate Separate(blocks: map<Block, Ptr>, b: Block, c: Block) {
    b in blocks && c in blocks && b != c && blocks[b] == blocks[c] ==> Apart(b, c)
  }

  lemma UseMore(blocks: map<Block, Ptr>, used: map<Ptr, nat>, a: Ptr, n: nat)
    requires BlocksFit(blocks, used) && (a in used ==> n >= used[a])
    ensures BlocksFit(blocks, used[a := n])
  {
  }

  /** What lies past the used part is zero; the count of the current arena, the head, may lag behind. */
  ghost predicate ChainFits(h: Heap, head: Ptr, chain: seq<Ptr>, used: map<Ptr, nat>) {
    && Linked(h, head, chain)
    && (forall a | a in chain :: a in used && Clean(h[a], used[a]) && (a != head ==> h[a].bytesAllocated == used[a]))
    && forall a | a in used :: a in chain
  }

  ghost predicate CursorFits(h: Heap, head: Ptr, used: map<Ptr, nat>, begin: int, ptr: int, end: int) {
    if head == 0 then begin == 0 && ptr == 0 && end == 0
    else
      && head in h && head in used && used[head] == ptr - begin
      && begin == head && begin <= ptr <= end == begin + h[head].size && ptr % 8 == 0
  }

  /** A cleared arena that no chain contains yet. */
  ghost predicate Spare(h: Heap, chain: seq<Ptr>, a: Ptr, n: nat) {
    a > 0 && a % 16 == 0 && a in h && a !in chain && Clean(h[a], 0) && n <= h[a].size && n % 8 == 0
  }

  function InsertSecond(h: Heap, head: Ptr, a: Ptr, n: nat): Heap
    requires head in h && a in h
  {
    h[a := h[a].(bytesAllocated := n, next := h[head].next)][head := h[head].(next := a)]
  }

  lemma InsertedSecond(h: Heap, head: Ptr, chain: seq<Ptr>, used: map<Ptr, nat>, a: Ptr, n: nat)
    requires ChainFits(h, head, chain, used) && Spare(h, chain, a, n) && head != 0
    ensures head in h && ChainFits(InsertSecond(h, head, a, n), head, [head] + ([a] + chain[1..]), used[a := n])
  {
    LinkedTail(h, head, chain);
    var k := InsertSecond(h, head, a, n);
    var tail := chain[1..];
    LinkedFrame(h, k, h[head].next, tail);
    LinkedPush(k, a, tail);
    LinkedPush(k, head, [a] + tail);
    assert chain == [head] + tail;
    forall b | b in [head] + ([a] + tail)
      ensures b in used[a := n] && Clean(k[b], used[a := n][b]) && (b != head ==> k[b].bytesAllocated == used[a := n][b])
    {
      assert b == a || b in chain;
    }
    forall b | b in used ensures b in [head] + ([a] + tail) {
      assert b == head || b in tail;
    }
  }

  function Push(h: Heap, head: Ptr, a: Ptr, count: nat): Heap
    requires a in h && (head != 0 ==> head in h)
  {
    var updated := if head == 0 then h else h[head := h[head].(bytesAllocated := count)];
    updated[a := h[a].(next := head)]
  }

  lemma Pushed(h: Heap, head: Ptr, chain: seq<Ptr>, used: map<Ptr, nat>, a: Ptr, n: nat, count: nat)
    requires ChainFits(h, head, chain, used) && Spare(h, chain, a, n)
    requires head != 0 ==> head in used && count == used[head]
    ensures head != 0 ==> head in h
    ensures ChainFits(Push(h, head, a, count), a, [a] + chain, used[a := n])
  {
    LinkedHead(h, head, chain);
    var k := Push(h, head, a, count);
    LinkedFrame(h, k, head, chain);
    LinkedPush(k, a, chain);
  }

  /** The pool does not notice what an allocator does to the arenas it holds. */
  lemma PoolFrame(h: Heap, k: Heap, head: Ptr, free: seq<Ptr>, lent: set<Ptr>)
    requires PoolFits(h, head, free, lent) && k.Keys == h.Keys
    requires forall a | a in h :: k[a].size == h[a].size && (a !in lent ==> k[a] == h[a])
    ensures PoolFits(k, head, free, lent)
  {
    LinkedFrame(h, k, head, free);
    RegionsKept(h, k);
  }

  lemma AddBlock(blocks: map<Block, Ptr>, used: map<Ptr, nat>, b: Block, a: Ptr)
    requires BlocksFit(blocks, used) && a in used && BlockFits(b, a, used[a])
    requires b !in blocks || blocks[b] == a
    requires forall c | c in blocks && blocks[c] == a :: Apart(b, c)
    ensures BlocksFit(blocks[b := a], used)
  {
    var grown := blocks[b := a];
    forall c, d ensures Separate(grown, c, d) {
      assert Separate(blocks, c, d);
    }
  }

  /** No block reaches into an arena that no chain contains. */
  lemma NotInSpare(h: Heap, chain: seq<Ptr>, head: Ptr, used: map<Ptr, nat>, blocks: map<Block, Ptr>, a: Ptr, n: nat)
    requires RegionsFit(h) && ChainFits(h, head, chain, used) && BlocksFit(blocks, used) && Spare(h, chain, a, n)
    ensures forall b | b in blocks :: b.start + b.size <= a || a + n <= b.start
  {
    forall b | b in blocks ensures b.start + b.size <= a || a + n <= b.start {
      var home := blocks[b];
      assert home in chain && home in h && Clean(h[home], used[home]) && BlockFits(b, home, used[home]);
      assert Below(h, home, a) && Below(h, a, home);
    }
  }

  function WithBlock(blocks: map<Block, Ptr>, b: Block, a: Ptr): map<Block, Ptr> {
    if b.size == 0 then blocks else blocks[b := a]
  }

  /** What an allocator knows of itself: its arenas, how much of each is used, the blocks it handed out
      with the arenas they lie in, and the sum of all rounded sizes and padding. */
  datatype Books = Books(chain: seq<Ptr>, used: map<Ptr, nat>, blocks: map<Block, Ptr>, requested: nat) {
    function Add(b: Block, a: Ptr, cost: nat): Books {
      this.(blocks := WithBlock(blocks, b, a), requested := requested + cost)
    }
  }

  /** The pool lends exactly the arenas that are added to a chain. */
  ghost predicate LentFor(before: set<Ptr>, after: set<Ptr>, k: Books, l: Books) {
    && (forall a | a in k.chain :: a in l.chain)
    && (forall a | a in l.chain && a !in k.chain :: a !in before)
    && (forall a :: a in after <==> a in before || a in l.chain)
  }

  lemma ChainOneMore(k: Books, a: Ptr, n: nat)
    ensures forall b :: b in WithFirst(k, a, n).chain <==> b == a || b in k.chain
    ensures k.chain != [] ==> forall b :: b in WithSecond(k, a, n).chain <==> b == a || b in k.chain
  {
    if k.chain != [] {
      assert k.chain == [k.chain[0]] + k.chain[1..];
    }
  }

  ghost predicate AllocFits(h: Heap, lent: set<Ptr>, head: Ptr, begin: int, ptr: int, end: int, k: Books) {
    && ChainFits(h, head, k.chain, k.used) && BlocksFit(k.blocks, k.used)
    && CursorFits(h, head, k.used, begin, ptr, end)
    && forall a | a in k.chain :: a in lent
  }

  ghost predicate Readable(h: Heap, k: Books) {
    BlocksFit(k.blocks, k.used) && forall a | a in k.used :: a in h && Clean(h[a], k.used[a])
  }

  /** The content of a block. */
  ghost function Content(h: Heap, k: Books, b: Block): seq<int>
    requires b in k.blocks && Readable(h, k)
  {
    var a := k.blocks[b];
    assert BlockFits(b, a, k.used[a]) && Clean(h[a], k.used[a]);
    h[a].bytes[b.start - a..b.start - a + b.size]
  }

  /** The books after an arena was put behind or in front of the chain for one block. */
  function WithSecond(k: Books, a: Ptr, n: nat): Books
    requires k.chain != []
  {
    Books([k.chain[0]] + ([a] + k.chain[1..]), k.used[a := n], k.blocks, k.requested).Add(Block(a, n), a, n)
  }

  function WithFirst(k: Books, a: Ptr, n: nat): Books {
    Books([a] + k.chain, k.used[a := n], k.blocks, k.requested).Add(Block(a, n), a, n)
  }

  lemma FirstBlock(h: Heap, head: Ptr, k: Books, a: Ptr, n: nat)
    requires RegionsFit(h) && ChainFits(h, head, k.chain, k.used) && BlocksFit(k.blocks, k.used)
    requires Spare(h, k.chain, a, n)
    ensures Block(a, n) !in k.blocks && BlocksFit(WithBlock(k.blocks, Block(a, n), a), k.used[a := n])
  {
    NotInSpare(h, k.chain, head, k.used, k.blocks, a, n);
    UseMore(k.blocks, k.used, a, n);
    if n > 0 {
      AddBlock(k.blocks, k.used[a := n], Block(a, n), a);
    }
  }

  lemma SecondFits(h: Heap, lent: set<Ptr>, head: Ptr, begin: int, ptr: int, end: int, k: Books, a: Ptr, n: nat)
    requires AllocFits(h, lent, head, begin, ptr, end, k) && RegionsFit(h)
    requires Spare(h, k.chain, a, n) && a in lent && head != 0
    ensures head in h && k.chain != [] && Block(a, n) !in k.blocks
    ensures AllocFits(InsertSecond(h, head, a, n), lent, head, begin, ptr, end, WithSecond(k, a, n))
  {
    InsertedSecond(h, head, k.chain, k.used, a, n);
    FirstBlock(h, head, k, a, n);
    assert k.chain == [head] + k.chain[1..];
  }

  lemma CursorAtStart(h: Heap, chain: seq<Ptr>, g: Heap, used: map<Ptr, nat>, a: Ptr, n: nat)
    requires Spare(h, chain, a, n) && a in g && g[a].size == h[a].size && a in used && used[a] == n
    ensures CursorFits(g, a, used, a, a + n, a + h[a].size)
  {
    MultipleOf8(a);
    SumOf8(a, n);
  }

  lemma FirstFits(h: Heap, lent: set<Ptr>, head: Ptr, begin: int, ptr: int, end: int, k: Books, a: Ptr, n: nat)
    requires AllocFits(h, lent, head, begin, ptr, end, k) && RegionsFit(h)
    requires Spare(h, k.chain, a, n) && a in lent
    ensures (head != 0 ==> head in h) && ptr >= begin && Block(a, n) !in k.blocks
    ensures AllocFits(Push(h, head, a, ptr - begin), lent, a, a, a + n, a + h[a].size, WithFirst(k, a, n))
  {
    LinkedHead(h, head, k.chain);
    Pushed(h, head, k.chain, k.used, a, n, ptr - begin);
    FirstBlock(h, head, k, a, n);
    CursorAtStart(h, k.chain, Push(h, head, a, ptr - begin), WithFirst(k, a, n).used, a, n);
    assert forall b | b in [a] + k.chain :: b == a || b in k.chain;
  }

  /** No block reaches past the pointer in the current arena. */
  lemma NoSuchBlock(h: Heap, lent: set<Ptr>, head: Ptr, begin: int, ptr: int, end: int, k: Books, b: Block)
    requires AllocFits(h, lent, head, begin, ptr, end, k) && RegionsFit(h) && head != 0
    requires begin <= b.start && b.size > 0 && b.start + b.size <= end
    ensures b in k.blocks ==> k.blocks[b] == head && b.start + b.size <= ptr
  {
    LinkedHead(h, head, k.chain);
    if b in k.blocks {
      var home := k.blocks[b];
      assert home in k.chain && Clean(h[home], k.used[home]) && BlockFits(b, home, k.used[home]);
      assert Below(h, home, head) && Below(h, head, home);
    }
  }

  /** Bumping the pointer of the current arena, after some padding, hands out a zeroed block. */
  function Bumped(head: Ptr, ptr: int, k: Books, padding: nat, n: nat): Books
    requires head in k.used
  {
    k.(used := k.used[head := k.used[head] + (padding + n)]).Add(Block(ptr + padding, n), head, padding + n)
  }

  lemma AdvanceFits(h: Heap, lent: set<Ptr>, head: Ptr, begin: int, ptr: int, end: int, k: Books, n: nat)
    requires AllocFits(h, lent, head, begin, ptr, end, k) && head != 0 && n % 8 == 0 && n <= end - ptr
    ensures head in k.used
    ensures AllocFits(h, lent, head, begin, ptr + n, end, k.(used := k.used[head := k.used[head] + n]))
    ensures forall i | ptr - begin <= i < ptr - begin + n :: 0 <= i < |h[head].bytes| && h[head].bytes[i] == 0
  {
    LinkedHead(h, head, k.chain);
    UseMore(k.blocks, k.used, head, k.used[head] + n);
  }

  lemma NextApart(blocks: map<Block, Ptr>, used: map<Ptr, nat>, head: Ptr, b: Block)
    requires BlocksFit(blocks, used) && head in used && head + used[head] <= b.start
    ensures forall c | c in blocks && blocks[c] == head :: Apart(b, c)
  {
    forall c | c in blocks && blocks[c] == head ensures Apart(b, c) {
      assert BlockFits(c, head, used[head]);
    }
  }

  lemma GrownApart(blocks: map<Block, Ptr>, used: map<Ptr, nat>, head: Ptr, b: Block, delta: nat)
    requires BlocksFit(blocks, used) && b in blocks && blocks[b] == head && head in used
    requires b.start + b.size == head + used[head]
    ensures forall c | c in blocks - {b} && blocks[c] == head :: Apart(Block(b.start, b.size + delta), c)
    ensures BlockFits(Block(b.start, b.size + delta), head, used[head] + delta) <== delta % 8 == 0
  {
    forall c | c in blocks - {b} && blocks[c] == head ensures Apart(Block(b.start, b.size + delta), c) {
      assert BlockFits(c, head, used[head]) && Separate(blocks, b, c);
    }
    assert BlockFits(b, head, used[head]);
  }

  lemma GrowBlock(blocks: map<Block, Ptr>, used: map<Ptr, nat>, head: Ptr, b: Block, delta: nat)
    requires BlocksFit(blocks, used) && b in blocks && blocks[b] == head && head in used
    requires b.start + b.size == head + used[head] && delta % 8 == 0
    requires var grown := Block(b.start, b.size + delta); grown in blocks ==> blocks[grown] == head
    ensures BlocksFit((blocks - {b})[Block(b.start, b.size + delta) := head], used[head := used[head] + delta])
  {
    GrownApart(blocks, used, head, b, delta);
    RemoveBlock(blocks, used, b);
    UseMore(blocks - {b}, used, head, used[head] + delta);
    AddBlock(blocks - {b}, used[head := used[head] + delta], Block(b.start, b.size + delta), head);
  }

  lemma NextBlock(blocks: map<Block, Ptr>, used: map<Ptr, nat>, head: Ptr, b: Block, m: nat)
    requires BlocksFit(blocks, used) && head in used && head + used[head] <= b.start && (b in blocks ==> blocks[b] == head)
    requires BlockFits(b, head, used[head] + m)
    ensures BlocksFit(blocks[b := head], used[head := used[head] + m])
  {
    NextApart(blocks, used, head, b);
    UseMore(blocks, used, head, used[head] + m);
    AddBlock(blocks, used[head := used[head] + m], b, head);
  }

  lemma BumpFits(h: Heap, lent: set<Ptr>, head: Ptr, begin: int, ptr: int, end: int, k: Books, padding: nat, n: nat)
    requires AllocFits(h, lent, head, begin, ptr, end, k) && RegionsFit(h) && head != 0
    requires padding % 8 == 0 && n % 8 == 0 && padding + n <= end - ptr
    ensures Block(ptr + padding, n) !in k.blocks
    ensures AllocFits(h, lent, head, begin, ptr + padding + n, end, Bumped(head, ptr, k, padding, n))
    ensures forall i | ptr - begin <= i < ptr - begin + padding + n :: 0 <= i < |h[head].bytes| && h[head].bytes[i] == 0
  {
    var b := Block(ptr + padding, n);
    AdvanceFits(h, lent, head, begin, ptr, end, k, padding + n);
    if n > 0 {
      NoSuchBlock(h, lent, head, begin, ptr, end, k, b);
      NextBlock(k.blocks, k.used, head, b, padding + n);
    }
  }

  /** Growing the block that ends where the free part of the current arena begins. */
  function Extended(head: Ptr, k: Books, b: Block, delta: nat): Books
    requires head in k.used
  {
    Books(k.chain, k.used[head := k.used[head] + delta], k.blocks - {b}, k.requested)
      .Add(Block(b.start, b.size + delta), head, delta)
  }

  lemma RemoveBlock(blocks: map<Block, Ptr>, used: map<Ptr, nat>, b: Block)
    requires BlocksFit(blocks, used)
    ensures BlocksFit(blocks - {b}, used)
  {
    var rest := blocks - {b};
    forall c, d ensures Separate(rest, c, d) {
      assert Separate(blocks, c, d);
    }
  }

  /** A block that ends at the pointer lies in the current arena exactly when something of that arena is in
      use: then a block in another arena, even an adjacent one, ends elsewhere. */
  lemma EndsAtPtr(h: Heap, lent: set<Ptr>, head: Ptr, begin: int, ptr: int, end: int, k: Books, b: Block)
    requires AllocFits(h, lent, head, begin, ptr, end, k) && RegionsFit(h)
    requires b in k.blocks && b.start + b.size == ptr
    ensures head != 0 && (k.blocks[b] == head <==> begin < ptr)
  {
    LinkedHead(h, head, k.chain);
    var home := k.blocks[b];
    assert home in k.chain && Clean(h[home], k.used[home]) && BlockFits(b, home, k.used[home]);
    assert Below(h, home, head) && Below(h, head, home);
  }

  lemma ExtendFits(h: Heap, lent: set<Ptr>, head: Ptr, begin: int, ptr: int, end: int, k: Books, b: Block, delta: nat)
    requires AllocFits(h, lent, head, begin, ptr, end, k) && RegionsFit(h)
    requires b in k.blocks && b.start + b.size == ptr && delta % 8 == 0 && delta <= end - ptr && begin < ptr
    ensures head in k.used && k.blocks[b] == head
    ensures delta > 0 ==> Block(b.start, b.size + delta) !in k.blocks
    ensures AllocFits(h, lent, head, begin, ptr + delta, end, Extended(head, k, b, delta))
    ensures forall i | ptr - begin <= i < ptr - begin + delta :: 0 <= i < |h[head].bytes| && h[head].bytes[i] == 0
  {
    EndsAtPtr(h, lent, head, begin, ptr, end, k, b);
    NoSuchBlock(h, lent, head, begin, ptr, end, k, Block(b.start, b.size + delta));
    AdvanceFits(h, lent, head, begin, ptr, end, k, delta);
    GrowBlock(k.blocks, k.used, head, b, delta);
  }

  // ----- accounting

  function Total(chain: seq<Ptr>, used: map<Ptr, nat>): nat {
    if chain == [] then 0
    else (if chain[0] in used then used[chain[0]] else 0) + Total(chain[1..], used)
  }

  lemma {:induction false} TotalFrame(chain: seq<Ptr>, used: map<Ptr, nat>, a: Ptr, n: nat)
    requires a !in chain
    ensures Total(chain, used[a := n]) == Total(chain, used)
  {
    if chain != [] {
      assert forall b | b in chain[1..] :: b in chain;
      TotalFrame(chain[1..], used, a, n);
    }
  }

  ghost predicate Balanced(k: Books) {
    Total(k.chain, k.used) == k.requested
  }

  lemma HeadBalanced(h: Heap, head: Ptr, k: Books, n: nat)
    requires Linked(h, head, k.chain) && head != 0 && head in k.used
    ensures Total(k.chain, k.used[head := k.used[head] + n]) == Total(k.chain, k.used) + n
  {
    LinkedTail(h, head, k.chain);
    TotalFrame(k.chain[1..], k.used, head, k.used[head] + n);
  }

  lemma FirstBalanced(h: Heap, head: Ptr, k: Books, a: Ptr, n: nat)
    requires ChainFits(h, head, k.chain, k.used) && a !in k.chain && Balanced(k)
    ensures Balanced(WithFirst(k, a, n))
    ensures k.chain != [] ==> Balanced(WithSecond(k, a, n))
  {
    var used := k.used[a := n];
    assert ([a] + k.chain)[1..] == k.chain;
    TotalFrame(k.chain, k.used, a, n);
    if k.chain != [] {
      var tail := k.chain[1..];
      assert forall b | b in tail :: b in k.chain;
      TotalFrame(tail, k.used, a, n);
      assert ([a] + tail)[1..] == tail;
      assert ([k.chain[0]] + ([a] + tail))[1..] == [a] + tail;
      assert k.chain[0] in k.chain;
    }
  }

  // ----- writing memory

  /** What aligning the pointer to 16 costs; a new arena needs no padding. */
  function Padding(ptr: nat, end: int, bytes: nat): nat {
    if Padding16(ptr) + bytes > end - ptr then 0 else Padding16(ptr)
  }

  /** Whoever writes inside its own block keeps everything in order. */
  lemma SpliceFits(h: Heap, lent: set<Ptr>, head: Ptr, begin: int, ptr: int, end: int, k: Books,
                   b: Block, offset: nat, data: seq<int>)
    requires AllocFits(h, lent, head, begin, ptr, end, k)
    requires b in k.blocks && offset + |data| <= b.size
    ensures
      var a := k.blocks[b];
      && a in h && a in lent && b.start - a + offset >= 0 && b.start - a + offset + |data| <= |h[a].bytes|
      && AllocFits(Splice(h, a, b.start - a + offset, data), lent, head, begin, ptr, end, k)
  {
    var a := k.blocks[b];
    assert a in k.chain && Clean(h[a], k.used[a]) && BlockFits(b, a, k.used[a]);
    var g := Splice(h, a, b.start - a + offset, data);
    LinkedFrame(h, g, head, k.chain);
    LinkedHead(h, head, k.chain);
  }

  lemma SplicedSlice(bytes: seq<int>, at: nat, data: seq<int>, hi: nat)
    requires at + |data| <= hi <= |bytes|
    ensures (bytes[..at] + data + bytes[at + |data|..])[at..hi] == data + bytes[at..hi][|data|..]
  {
  }

  lemma SpliceContent(h: Heap, k: Books, b: Block, data: seq<int>)
    requires Readable(h, k) && b in k.blocks && |data| <= b.size
    requires b.start >= k.blocks[b] && b.start - k.blocks[b] + |data| <= |h[k.blocks[b]].bytes|
    requires Readable(Splice(h, k.blocks[b], b.start - k.blocks[b], data), k)
    ensures
      var g := Splice(h, k.blocks[b], b.start - k.blocks[b], data);
      Content(g, k, b) == data + Content(h, k, b)[|data|..]
  {
    var a := k.blocks[b];
    assert BlockFits(b, a, k.used[a]) && Clean(h[a], k.used[a]);
    SplicedSlice(h[a].bytes, b.start - a, data, b.start - a + b.size);
  }

  lemma WriteFits(h: Heap, lent: set<Ptr>, head: Ptr, begin: int, ptr: int, end: int, k: Books,
                  b: Block, address: int, value: int, freeHead: Ptr, free: seq<Ptr>)
    requires AllocFits(h, lent, head, begin, ptr, end, k) && PoolFits(h, freeHead, free, lent)
    requires b in k.blocks && b.start <= address < b.start + b.size
    ensures
      var a := k.blocks[b];
      && a in h && a <= address < a + h[a].size && |h[a].bytes| == h[a].size
      && AllocFits(Splice(h, a, address - a, [value]), lent, head, begin, ptr, end, k)
      && PoolFits(Splice(h, a, address - a, [value]), freeHead, free, lent)
  {
    var a := k.blocks[b];
    assert BlockFits(b, a, k.used[a]) && Clean(h[a], k.used[a]);
    SpliceFits(h, lent, head, begin, ptr, end, k, b, address - b.start, [value]);
    PoolFrame(h, Splice(h, a, address - a, [value]), freeHead, free, lent);
  }

  lemma CountUpdated(h: Heap, lent: set<Ptr>, head: Ptr, begin: int, ptr: int, end: int, k: Books)
    requires AllocFits(h, lent, head, begin, ptr, end, k) && head != 0
    ensures ptr >= begin && head in h && head in k.chain
    ensures
      var g := h[head := h[head].(bytesAllocated := ptr - begin)];
      AllocFits(g, lent, head, begin, ptr, end, k) && forall a | a in k.chain :: g[a].bytesAllocated == k.used[a]
  {
    LinkedHead(h, head, k.chain);
    LinkedFrame(h, h[head := h[head].(bytesAllocated := ptr - begin)], head, k.chain);
  }

  lemma SecondTaken(h: Heap, lent: set<Ptr>, head: Ptr, begin: int, ptr: int, end: int, k: Books, a: Ptr, n: nat,
                    freeHead: Ptr, free: seq<Ptr>)
    requires AllocFits(h, lent, head, begin, ptr, end, k) && Balanced(k) && PoolFits(h, freeHead, free, lent)
    requires Spare(h, k.chain, a, n) && a in lent && head != 0
    ensures head in h && k.chain != []
    ensures
      var g := InsertSecond(h, head, a, n);
      && AllocFits(g, lent, head, begin, ptr, end, WithSecond(k, a, n))
      && Balanced(WithSecond(k, a, n)) && PoolFits(g, freeHead, free, lent)
  {
    LinkedHead(h, head, k.chain);
    FirstBalanced(h, head, k, a, n);
    SecondFits(h, lent, head, begin, ptr, end, k, a, n);
    PoolFrame(h, InsertSecond(h, head, a, n), freeHead, free, lent);
  }

  lemma FirstTaken(h: Heap, lent: set<Ptr>, head: Ptr, begin: int, ptr: int, end: int, k: Books, a: Ptr, n: nat,
                   freeHead: Ptr, free: seq<Ptr>)
    requires AllocFits(h, lent, head, begin, ptr, end, k) && Balanced(k) && PoolFits(h, freeHead, free, lent)
    requires Spare(h, k.chain, a, n) && a in lent
    ensures (head != 0 ==> head in h) && ptr >= begin
    ensures
      var g := Push(h, head, a, ptr - begin);
      && AllocFits(g, lent, a, a, a + n, a + g[a].size, WithFirst(k, a, n))
      && Balanced(WithFirst(k, a, n)) && PoolFits(g, freeHead, free, lent)
  {
    LinkedHead(h, head, k.chain);
    FirstBalanced(h, head, k, a, n);
    FirstFits(h, lent, head, begin, ptr, end, k, a, n);
    PoolFrame(h, Push(h, head, a, ptr - begin), freeHead, free, lent);
  }

  /** Between two moments one more block was handed out: zeroed and no part of an earlier one, while no byte
      of the arenas used so far has changed. */
  ghost predicate Served(h: Heap, k: Books, g: Heap, l: Books, b: Block) {
    && Readable(h, k) && Readable(g, l)
    && b !in k.blocks
    && (b.size == 0 ==> l.blocks == k.blocks)
    && (b.size > 0 ==> && b in l.blocks && l.blocks == k.blocks[b := l.blocks[b]]
                       && Content(g, l, b) == Zeroes(b.size))
    && forall a | a in k.used :: a in l.used && g[a].bytes == h[a].bytes
  }

  lemma ServedKeepsOthers(h: Heap, k: Books, g: Heap, l: Books, b: Block, c: Block)
    requires Served(h, k, g, l, b) && c in k.blocks
    ensures Content(g, l, c) == Content(h, k, c)
  {
    assert BlockFits(c, l.blocks[c], l.used[l.blocks[c]]);
    assert k.blocks[c] in k.used;
  }

  /** What belongs to other allocators has not changed and still belongs to them. */
  ghost predicate OthersKept(h: Heap, g: Heap, lent: set<Ptr>, k: Books, l: Books) {
    forall a | a in lent && a in h && a !in k.chain :: a !in l.chain && a in g && g[a] == h[a]
  }

  lemma NothingLent(h: Heap, lent: set<Ptr>, k: Books, l: Books)
    requires (forall a | a in k.chain :: a in lent) && l.chain == k.chain
    ensures OthersKept(h, h, lent, k, l) && LentFor(lent, lent, k, l)
  {
  }

  lemma OthersStillKept(h: Heap, g: Heap, f: Heap, lent: set<Ptr>, k: Books, l: Books)
    requires OthersKept(h, g, lent, k, l)
    requires forall a | a in g && a !in l.chain :: a in f && f[a] == g[a]
    ensures OthersKept(h, f, lent, k, l)
  {
  }

  /** Arenas changed only their links and counts, and only those of one chain and one more arena did. */
  ghost predicate OnlyLinks(h: Heap, g: Heap, chain: seq<Ptr>, a: Ptr) {
    forall x | x in h :: x in g && g[x].bytes == h[x].bytes && (x !in chain && x != a ==> g[x] == h[x])
  }

  lemma AllocFrame(h: Heap, g: Heap, lent: set<Ptr>, more: set<Ptr>, head: Ptr, begin: int, ptr: int, end: int, k: Books)
    requires AllocFits(h, lent, head, begin, ptr, end, k) && lent <= more
    requires forall a | a in k.chain :: a in g && g[a] == h[a]
    ensures AllocFits(g, more, head, begin, ptr, end, k)
  {
    LinkedFrame(h, g, head, k.chain);
    LinkedHead(h, head, k.chain);
  }

  lemma ServedByNewArena(h: Heap, k: Books, g: Heap, l: Books, a: Ptr, n: nat)
    requires Readable(h, k) && Readable(g, l) && a !in k.used && Block(a, n) !in k.blocks
    requires l.used == k.used[a := n] && l.blocks == WithBlock(k.blocks, Block(a, n), a)
    requires a in g && Clean(g[a], 0)
    requires forall x | x in k.used :: x in g && g[x].bytes == h[x].bytes
    ensures Served(h, k, g, l, Block(a, n))
  {
    assert n > 0 ==> Block(a, n) in l.blocks && BlockFits(Block(a, n), a, l.used[a]);
  }

  lemma BumpServes(h: Heap, lent: set<Ptr>, head: Ptr, begin: int, ptr: int, end: int, k: Books, padding: nat, n: nat)
    requires AllocFits(h, lent, head, begin, ptr, end, k) && Balanced(k) && RegionsFit(h) && head != 0
    requires padding % 8 == 0 && n % 8 == 0 && padding + n <= end - ptr
    ensures head in k.used
    ensures
      var l := Bumped(head, ptr, k, padding, n);
      && AllocFits(h, lent, head, begin, ptr + padding + n, end, l) && Balanced(l)
      && Served(h, k, h, l, Block(ptr + padding, n))
  {
    LinkedHead(h, head, k.chain);
    BumpFits(h, lent, head, begin, ptr, end, k, padding, n);
    HeadBalanced(h, head, k, padding + n);
    var l, b := Bumped(head, ptr, k, padding, n), Block(ptr + padding, n);
    if n > 0 {
      assert b in l.blocks && l.blocks[b] == head && BlockFits(b, head, l.used[head]);
      assert Content(h, l, b) == Zeroes(n);
    }
  }

  /** A block was resized: its first bytes are where the new block starts, and what the new block has beyond
      the old one is zero. Bytes changed only at the start of the new block. */
  ghost predicate Resized(h: Heap, k: Books, g: Heap, l: Books, b: Block, r: Block, size: nat) {
    && Readable(h, k) && Readable(g, l) && b in k.blocks && r in l.blocks
    && size <= b.size && size <= r.size && |Content(h, k, b)| == b.size && |Content(g, l, r)| == r.size
    && Content(g, l, r)[..size] == Content(h, k, b)[..size]
    && (forall i | b.size <= i < r.size :: Content(g, l, r)[i] == 0)
    && (r in k.blocks ==> r == b)
    && (forall c | c in k.blocks && c != b :: c in l.blocks && l.blocks[c] == k.blocks[c])
    && forall a | a in k.used :: a in l.used && BytesKept(h[a].bytes, g[a].bytes, a, l.blocks[r], r.start, size)
  }

  ghost predicate BytesKept(before: seq<int>, after: seq<int>, a: Ptr, home: Ptr, start: int, size: nat) {
    |after| == |before| &&
    forall i | 0 <= i < |before| :: after[i] == before[i] || (a == home && start <= a + i < start + size)
  }

  lemma ResizedKeepsOthers(h: Heap, k: Books, g: Heap, l: Books, b: Block, r: Block, size: nat, c: Block)
    requires Resized(h, k, g, l, b, r, size) && c in k.blocks && c != b
    ensures c in l.blocks && Content(g, l, c) == Content(h, k, c)
  {
    var a := k.blocks[c];
    assert l.blocks[c] == a && a in k.used && a in l.used && BlockFits(c, a, k.used[a]);
    assert BytesKept(h[a].bytes, g[a].bytes, a, l.blocks[r], r.start, size);
    assert a == l.blocks[r] ==> Apart(c, r) by {
      assert Separate(l.blocks, c, r);
    }
    SliceKept(h[a].bytes, g[a].bytes, a, l.blocks[r], r, size, c, k.used[a]);
  }

  lemma SliceKept(before: seq<int>, after: seq<int>, a: Ptr, home: Ptr, r: Block, size: nat, c: Block, used: nat)
    requires BytesKept(before, after, a, home, r.start, size) && size <= r.size
    requires a == home ==> Apart(c, r)
    requires BlockFits(c, a, used) && used <= |before|
    ensures after[c.start - a..c.start - a + c.size] == before[c.start - a..c.start - a + c.size]
  {
  }

  lemma ExtendResizes(h: Heap, k: Books, l: Books, head: Ptr, b: Block, delta: nat, size: nat)
    requires Readable(h, k) && head in k.used && b in k.blocks && k.blocks[b] == head && size <= b.size
    requires l == Extended(head, k, b, delta) && Readable(h, l)
    requires delta > 0 ==> Block(b.start, b.size + delta) !in k.blocks
    requires b.start + b.size == head + k.used[head]
    ensures Resized(h, k, h, l, b, Block(b.start, b.size + delta), size)
  {
    assert BlockFits(b, head, k.used[head]);
    assert Clean(h[head], k.used[head]);
    assert Content(h, l, Block(b.start, b.size + delta)) == Content(h, k, b) + Zeroes(delta);
  }

  /** The first bytes of a block, read from the arena it lies in. */
  ghost function SourceOf(h: Heap, k: Books, b: Block, size: nat): seq<int>
    requires Readable(h, k) && b in k.blocks && size <= b.size
  {
    assert BlockFits(b, k.blocks[b], k.used[k.blocks[b]]) && Clean(h[k.blocks[b]], k.used[k.blocks[b]]);
    h[k.blocks[b]].bytes[b.start - k.blocks[b]..b.start - k.blocks[b] + size]
  }

  lemma SourceKept(h: Heap, k: Books, g: Heap, l: Books, b: Block, r: Block, size: nat)
    requires Served(h, k, g, l, r) && b in k.blocks && size <= b.size
    ensures b in l.blocks && |Content(h, k, b)| == b.size
    ensures SourceOf(g, l, b, size) == Content(h, k, b)[..size]
  {
    assert BlockFits(b, k.blocks[b], k.used[k.blocks[b]]) && Clean(h[k.blocks[b]], k.used[k.blocks[b]]);
    ServedKeepsOthers(h, k, g, l, r, b);
    assert Content(g, l, b)[..size] == SourceOf(g, l, b, size);
  }

  lemma CopyResizes(h: Heap, k: Books, g: Heap, l: Books, b: Block, r: Block, data: seq<int>)
    requires Served(h, k, g, l, r) && b in k.blocks && |data| <= b.size && |data| <= r.size && r.size > 0
    requires |Content(h, k, b)| == b.size && data == Content(h, k, b)[..|data|]
    requires r.start >= l.blocks[r] && r.start - l.blocks[r] + |data| <= |g[l.blocks[r]].bytes|
    requires Readable(Splice(g, l.blocks[r], r.start - l.blocks[r], data), l)
    ensures Resized(h, k, Splice(g, l.blocks[r], r.start - l.blocks[r], data), l, b, r, |data|)
  {
    SpliceContent(g, l, r, data);
    var f := Splice(g, l.blocks[r], r.start - l.blocks[r], data);
    assert Content(f, l, r) == data + Zeroes(r.size)[|data|..];
    assert Content(f, l, r)[..|data|] == data;
    forall a | a in k.used ensures BytesKept(h[a].bytes, f[a].bytes, a, l.blocks[r], r.start, |data|) {}
  }

  lemma CopiedResizes(h: Heap, k: Books, g: Heap, f: Heap, l: Books, b: Block, r: Block, size: nat)
    requires Served(h, k, g, l, r) && b in k.blocks && size <= b.size && size <= r.size && r.size > 0
    requires b in l.blocks && 0 <= r.start - l.blocks[r] && r.start - l.blocks[r] + size <= |g[l.blocks[r]].bytes|
    requires f == Splice(g, l.blocks[r], r.start - l.blocks[r], SourceOf(g, l, b, size)) && Readable(f, l)
    ensures Resized(h, k, f, l, b, r, size)
  {
    SourceKept(h, k, g, l, b, r, size);
    CopyResizes(h, k, g, l, b, r, SourceOf(g, l, b, size));
  }

  lemma CopyFits(h: Heap, k: Books, g: Heap, lent: set<Ptr>, head: Ptr, begin: int, ptr: int, end: int, l: Books,
                 b: Block, r: Block, size: nat, freeHead: Ptr, free: seq<Ptr>)
    requires AllocFits(g, lent, head, begin, ptr, end, l) && PoolFits(g, freeHead, free, lent)
    requires Served(h, k, g, l, r) && b in k.blocks && size <= b.size && size <= r.size && r.size > 0
    ensures b in l.blocks
    ensures
      var a, data := l.blocks[r], SourceOf(g, l, b, size);
      && a in g && a in l.chain && 0 <= r.start - a && r.start - a + size <= |g[a].bytes|
      && var f := Splice(g, a, r.start - a, data);
         && AllocFits(f, lent, head, begin, ptr, end, l) && PoolFits(f, freeHead, free, lent)
         && |Content(h, k, b)| == b.size && data == Content(h, k, b)[..|data|]
  {
    SourceKept(h, k, g, l, b, r, size);
    assert BlockFits(r, l.blocks[r], l.used[l.blocks[r]]);
    SpliceFits(g, lent, head, begin, ptr, end, l, r, 0, SourceOf(g, l, b, size));
    PoolFrame(g, Splice(g, l.blocks[r], r.start - l.blocks[r], SourceOf(g, l, b, size)), freeHead, free, lent);
  }

  class ArenaAllocator {
    const pool: MemMapArenaPool
    var begin: int
    var end: int
    var ptr: int
    var arenaHead: Ptr
    ghost var books: Books

    constructor (pool: MemMapArenaPool)
      ensures this.pool == pool && Valid()
      ensures books == Books([], map[], map[], 0)
    {
      this.pool := pool;
      begin, end, ptr, arenaHead := 0, 0, 0, 0;
      books := Books([], map[], map[], 0);
    }

    ghost predicate Valid()
      reads this, pool
    {
      AllocFits(pool.heap, pool.lent, arenaHead, begin, ptr, end, books) && Balanced(books)
    }

    /** Something of the current arena is in use. */
    predicate Tight()
      reads this
    {
      arenaHead != 0 ==> begin < ptr
    }

    // The current arena has more room left than the new one would have.
    method KeepCurrentArena(arena: Ptr, bytes: nat)
      requires Valid() && pool.Valid() && Spare(pool.heap, books.chain, arena, bytes) && arena in pool.lent
      requires arenaHead in pool.heap && arenaHead != 0
      modifies this`books, pool`heap
      ensures Valid() && pool.Valid()
      ensures old(books).chain != [] && books == WithSecond(old(books), arena, bytes)
      ensures old(pool.heap)[arena].size == pool.heap[arena].size
      ensures pool.heap == InsertSecond(old(pool.heap), arenaHead, arena, bytes)
    {
      SecondTaken(pool.heap, pool.lent, arenaHead, begin, ptr, end, books, arena, bytes, pool.freeArenas, pool.free);
      pool.heap := InsertSecond(pool.heap, arenaHead, arena, bytes);
      books := WithSecond(books, arena, bytes);
    }

    method PushArena(arena: Ptr, bytes: nat)
      requires Valid() && pool.Valid() && Spare(pool.heap, books.chain, arena, bytes) && arena in pool.lent
      requires (arenaHead != 0 ==> arenaHead in pool.heap) && begin <= ptr
      modifies this, pool`heap
      ensures Valid() && pool.Valid() && books == WithFirst(old(books), arena, bytes)
      ensures pool.heap == Push(old(pool.heap), old(arenaHead), arena, old(ptr - begin))
      ensures begin == arena && ptr == arena + bytes && end == arena + old(pool.heap)[arena].size && arenaHead == arena
    {
      FirstTaken(pool.heap, pool.lent, arenaHead, begin, ptr, end, books, arena, bytes, pool.freeArenas, pool.free);
      pool.heap := Push(pool.heap, arenaHead, arena, ptr - begin);
      books := WithFirst(books, arena, bytes);
      arenaHead, begin, ptr, end := arena, arena, arena + bytes, arena + pool.heap[arena].size;
    }
  
    /** Adds an arena just taken from the pool, for one block at its start. */
    method AddArena(arena: Ptr, bytes: nat)
      requires Valid() && pool.Valid() && Spare(pool.heap, books.chain, arena, bytes) && arena in pool.lent
      modifies this, pool`heap
      ensures Valid() && pool.Valid()
      ensures books.blocks == WithBlock(old(books).blocks, Block(arena, bytes), arena)
      ensures books.used == old(books).used[arena := bytes] && books.requested == old(books).requested + bytes
      ensures OnlyLinks(old(pool.heap), pool.heap, old(books).chain, arena)
      ensures forall a :: a in books.chain <==> a == arena || a in old(books).chain
      ensures end - ptr == if old(end - ptr) > old(pool.heap)[arena].size - bytes then old(end - ptr)
                           else old(pool.heap)[arena].size - bytes
      ensures Tight() <==> if old(end - ptr) > old(pool.heap)[arena].size - bytes then old(Tight()) else bytes > 0
    {
      ChainOneMore(books, arena, bytes);
      LinkedHead(pool.heap, arenaHead, books.chain);
      if end - ptr > pool.heap[arena].size - bytes {
        KeepCurrentArena(arena, bytes);
      } else {
        PushArena(arena, bytes);
      }
    }

    method AllocFromNewArena(bytes: nat, at: int) returns (p: Option<int>)
      requires Valid() && pool.Valid() && bytes % 8 == 0
      requires MapFits(pool.heap, at, Max(DEFAULT_SIZE, bytes))
      modifies this, pool
      ensures Valid() && pool.Valid() && OthersKept(old(pool.heap), pool.heap, old(pool.lent), old(books), books)
      ensures LentFor(old(pool.lent), pool.lent, old(books), books)
      ensures p == None ==> at == MAP_FAILED && books == old(books) && pool.heap == old(pool.heap)
      ensures p.Some? ==>
        && p.value % 16 == 0 && p.value != 0 && books.requested == old(books).requested + bytes
        && Served(old(pool.heap), old(books), pool.heap, books, Block(p.value, bytes))
      ensures p.Some? ==>
        && p.value !in old(books).chain && p.value in books.chain && p.value in pool.heap
        && var room := pool.heap[p.value].size - bytes; end - ptr == if old(end - ptr) > room then old(end - ptr) else room
      ensures p.Some? && p.value !in old(pool.heap) ==>
        p.value in pool.heap && pool.heap[p.value].size == if bytes > 65536 then bytes else 65536
      ensures p == None ==> Tight() == old(Tight())
      ensures p.Some? && old(Tight()) && (bytes > 0 || old(end - ptr) <= DEFAULT_SIZE) ==> (Tight() <==> bytes > 0)
    {
      ghost var h, k, lent := pool.heap, books, pool.lent;
      var arena := pool.AllocArena(Max(DEFAULT_SIZE, bytes), at);
      if arena == 0 {
        return None;
      }
      AllocFrame(h, pool.heap, lent, pool.lent, arenaHead, begin, ptr, end, k);
      FirstBlock(pool.heap, arenaHead, k, arena, bytes);
      AddArena(arena, bytes);
      ServedByNewArena(h, k, pool.heap, books, arena, bytes);
      p := Some(arena);
    }
  
    method Alloc(bytes: nat, at: int) returns (p: Option<int>)
      requires Valid() && pool.Valid()
      requires MapFits(pool.heap, at, Max(DEFAULT_SIZE, Align8(bytes)))
      modifies this, pool
      ensures Valid() && pool.Valid() && OthersKept(old(pool.heap), pool.heap, old(pool.lent), old(books), books)
      ensures LentFor(old(pool.lent), pool.lent, old(books), books)
      ensures p == None ==> at == MAP_FAILED && books == old(books) && pool.heap == old(pool.heap)
      ensures old(Tight()) ==> Tight()
      ensures p.Some? && p.value != 0 ==>
        && p.value % 8 == 0 && books.requested == old(books).requested + Align8(bytes)
        && Served(old(pool.heap), old(books), pool.heap, books, Block(p.value, Align8(bytes)))
      ensures p == Some(0) ==> bytes == 0 && books == old(books) && books.chain == [] && pool.heap == old(pool.heap)
      ensures Align8(bytes) <= old(end - ptr) ==> p == Some(old(ptr)) && pool.heap == old(pool.heap) && ptr == old(ptr) + Align8(bytes)
      ensures Align8(bytes) > old(end - ptr) && p.Some? ==> p.value !in old(books).chain && p.value in books.chain
    {
      p := AllocRounded(Align8(bytes), at);
    }

    method AllocRounded(n: nat, at: int) returns (p: Option<int>)
      requires Valid() && pool.Valid() && n % 8 == 0
      requires MapFits(pool.heap, at, Max(DEFAULT_SIZE, n))
      modifies this, pool
      ensures Valid() && pool.Valid() && OthersKept(old(pool.heap), pool.heap, old(pool.lent), old(books), books)
      ensures LentFor(old(pool.lent), pool.lent, old(books), books)
      ensures p == None ==> at == MAP_FAILED && books == old(books) && pool.heap == old(pool.heap)
      ensures old(Tight()) ==> Tight()
      ensures p.Some? && p.value != 0 ==>
        && p.value % 8 == 0 && books.requested == old(books).requested + n
        && Served(old(pool.heap), old(books), pool.heap, books, Block(p.value, n))
      ensures p == Some(0) ==> n == 0 && books == old(books) && books.chain == [] && pool.heap == old(pool.heap)
      ensures n <= old(end - ptr) ==> p == Some(old(ptr)) && pool.heap == old(pool.heap) && ptr == old(ptr) + n
      ensures n > old(end - ptr) && p.Some? ==> p.value !in old(books).chain && p.value in books.chain
    {
      if n > end - ptr {
        p := AllocFromNewArena(n, at);
        return;
      }
      p := Some(ptr);
      LinkedHead(pool.heap, arenaHead, books.chain);
      if arenaHead != 0 {
        Bump(0, n);
      }
      NothingLent(pool.heap, pool.lent, old(books), books);
    }

    method Bump(padding: nat, bytes: nat)
      requires Valid() && pool.Valid() && arenaHead != 0
      requires padding % 8 == 0 && bytes % 8 == 0 && padding + bytes <= end - ptr
      modifies this`ptr, this`books
      ensures Valid() && pool.Valid() && books.chain == old(books).chain && ptr == old(ptr) + padding + bytes
      ensures books.requested == old(books).requested + padding + bytes
      ensures Served(pool.heap, old(books), pool.heap, books, Block(old(ptr) + padding, bytes))
    {
      BumpServes(pool.heap, pool.lent, arenaHead, begin, ptr, end, books, padding, bytes);
      books := Bumped(arenaHead, ptr, books, padding, bytes);
      ptr := ptr + padding;
      ptr := ptr + bytes;
    }

    /** A request for no bytes that needs padding where there is no room for it takes a new arena and uses
        nothing of it. */
    method AllocAlign16(bytes: nat, at: int) returns (p: Option<int>)
      requires Valid() && pool.Valid() && bytes % 16 == 0
      requires MapFits(pool.heap, at, Max(DEFAULT_SIZE, bytes))
      modifies this, pool
      ensures Valid() && pool.Valid() && OthersKept(old(pool.heap), pool.heap, old(pool.lent), old(books), books)
      ensures LentFor(old(pool.lent), pool.lent, old(books), books)
      ensures p == None ==> at == MAP_FAILED && books == old(books) && pool.heap == old(pool.heap)
      ensures p.Some? && p.value != 0 ==>
        && p.value % 16 == 0
        && books.requested == old(books).requested + bytes + Padding(old(ptr), old(end), bytes)
        && Served(old(pool.heap), old(books), pool.heap, books, Block(p.value, bytes))
      ensures p == Some(0) ==> bytes == 0 && books == old(books) && books.chain == [] && pool.heap == old(pool.heap)
      ensures p.Some? && old(Tight()) ==> (Tight() <==> bytes > 0 || Padding16(old(ptr)) <= old(end - ptr))
      ensures Padding16(old(ptr)) + bytes <= old(end - ptr) ==>
        p == Some(old(ptr) + Padding16(old(ptr))) && pool.heap == old(pool.heap) && ptr == old(ptr) + Padding16(old(ptr)) + bytes
      ensures Padding16(old(ptr)) + bytes > old(end - ptr) && p.Some? ==> p.value !in old(books).chain && p.value in books.chain
    {
      var padding := PaddingTo16();
      p := AllocPadded(padding, bytes, at);
    }

    method AllocPadded(padding: nat, bytes: nat, at: int) returns (p: Option<int>)
      requires Valid() && pool.Valid() && bytes % 16 == 0
      requires padding % 8 == 0 && (ptr + padding) % 16 == 0 && padding <= 8
      requires MapFits(pool.heap, at, Max(DEFAULT_SIZE, bytes))
      modifies this, pool
      ensures Valid() && pool.Valid() && OthersKept(old(pool.heap), pool.heap, old(pool.lent), old(books), books)
      ensures LentFor(old(pool.lent), pool.lent, old(books), books)
      ensures p == None ==> at == MAP_FAILED && books == old(books) && pool.heap == old(pool.heap)
      ensures p.Some? && p.value != 0 ==>
        && p.value % 16 == 0
        && books.requested == old(books).requested + bytes + (if padding + bytes > old(end - ptr) then 0 else padding)
        && Served(old(pool.heap), old(books), pool.heap, books, Block(p.value, bytes))
      ensures p == Some(0) ==> bytes == 0 && books == old(books) && books.chain == [] && pool.heap == old(pool.heap)
      ensures p.Some? && old(Tight()) ==> (Tight() <==> bytes > 0 || padding <= old(end - ptr))
      ensures padding + bytes <= old(end - ptr) ==>
        p == Some(old(ptr) + padding) && pool.heap == old(pool.heap) && ptr == old(ptr) + padding + bytes
      ensures padding + bytes > old(end - ptr) && p.Some? ==> p.value !in old(books).chain && p.value in books.chain
    {
      if padding + bytes > end - ptr {
        MultipleOf8(bytes);
        p := AllocFromNewArena(bytes, at);
      } else {
        p := BumpAligned(padding, bytes);
      }
    }

    method PaddingTo16() returns (padding: nat)
      requires Valid() && pool.Valid()
      ensures padding == Padding16(ptr) && padding % 8 == 0 && (ptr + padding) % 16 == 0 && padding <= 8
    {
      LinkedHead(pool.heap, arenaHead, books.chain);
      PaddingAligns(ptr);
      padding := Align16(ptr) - ptr;
    }

    method BumpAligned(padding: nat, bytes: nat) returns (p: Option<int>)
      requires Valid() && pool.Valid() && bytes % 16 == 0
      requires padding % 8 == 0 && (ptr + padding) % 16 == 0 && padding + bytes <= end - ptr
      modifies this`ptr, this`books
      ensures OthersKept(pool.heap, pool.heap, pool.lent, old(books), books)
      ensures LentFor(pool.lent, pool.lent, old(books), books)
      ensures Valid() && pool.Valid() && books.chain == old(books).chain && (old(Tight()) ==> Tight())
      ensures p.Some? && (p.value == 0 ==> bytes == 0 && books == old(books) && books.chain == [])
      ensures p.value != 0 ==>
        && p.value % 16 == 0
        && books.requested == old(books).requested + bytes + padding
        && Served(pool.heap, old(books), pool.heap, books, Block(p.value, bytes))
      ensures p == Some(old(ptr) + padding) && ptr == old(ptr) + padding + bytes
    {
      LinkedHead(pool.heap, arenaHead, books.chain);
      MultipleOf8(bytes);
      p := Some(ptr + padding);
      if arenaHead != 0 {
        Bump(padding, bytes);
      }
      NothingLent(pool.heap, pool.lent, old(books), books);
    }

    /** A block of `n` bytes at `p` ends where an arena begins that nothing is used of: it lies in the arena
        before it. */
    predicate Strays(p: int, n: nat)
      reads this
    {
      n > 0 && p + n == ptr && ptr == begin
    }

    /** A block of `n` bytes at `p` can be extended to `m` bytes where it is. */
    predicate GrowsInPlace(p: int, n: nat, m: nat)
      reads this
    {
      p + n == ptr && m - n <= end - ptr
    }

    /** Grows in place when nothing was handed out after the block and there is room, otherwise copies it. A
        pointer to no bytes is as good as none. A block that strays is extended into an arena it is not in. */
    method Realloc(p: int, size: nat, newSize: nat, at: int) returns (q: Option<int>)
      requires Valid() && pool.Valid() && newSize >= size && p >= 0
      requires size > 0 ==> Block(p, Align8(size)) in books.blocks
      requires MapFits(pool.heap, at, Max(DEFAULT_SIZE, Align8(newSize)))
      modifies this, pool
      ensures pool.Valid() && OthersKept(old(pool.heap), pool.heap, old(pool.lent), old(books), books)
      ensures LentFor(old(pool.lent), pool.lent, old(books), books)
      ensures var n, m := Align8(size), Align8(newSize);
              && (Valid() <==> !(old(Strays(p, n)) && m > n && old(GrowsInPlace(p, n, m))))
              && (!Valid() ==> q == Some(p) && p < begin < p + m && ptr == p + m)
      ensures old(Tight()) ==> Valid() && Tight()
      ensures q == None ==> at == MAP_FAILED && books == old(books) && pool.heap == old(pool.heap)
      ensures q.Some? && size > 0 && Valid() ==>
        Resized(old(pool.heap), old(books), pool.heap, books,
                Block(p, Align8(size)), Block(q.value, Align8(newSize)), size)
      ensures q.Some? && size == 0 && q.value != 0 ==>
        Served(old(pool.heap), old(books), pool.heap, books, Block(q.value, Align8(newSize)))
      ensures q == Some(0) ==> newSize == 0 && books == old(books) && pool.heap == old(pool.heap)
      ensures var n, m := Align8(size), Align8(newSize);
              && (old(GrowsInPlace(p, n, m)) ==> q == Some(p) && pool.heap == old(pool.heap))
              && (!old(GrowsInPlace(p, n, m)) && n > 0 && q.Some? ==> q.value != p && Block(p, n) in books.blocks)
              && (q.Some? && q.value != 0 && Valid() ==>
                    books.requested == old(books).requested + m - if old(GrowsInPlace(p, n, m)) then n else 0)
    {
      if size == 0 {
        q := ReallocNothing(p, Align8(newSize), at);
      } else {
        AlignKeepsOrder(size, newSize);
        q := ReallocBlock(p, size, Align8(size), Align8(newSize), at);
      }
    }

    // As Realloc, from no bytes to `m`, which is rounded already.
    method ReallocNothing(p: int, m: nat, at: int) returns (q: Option<int>)
      requires Valid() && pool.Valid() && p >= 0 && m % 8 == 0
      requires MapFits(pool.heap, at, Max(DEFAULT_SIZE, m))
      modifies this, pool
      ensures Valid() && pool.Valid() && OthersKept(old(pool.heap), pool.heap, old(pool.lent), old(books), books)
      ensures LentFor(old(pool.lent), pool.lent, old(books), books)
      ensures old(Tight()) ==> Tight()
      ensures q == None ==> at == MAP_FAILED && books == old(books) && pool.heap == old(pool.heap)
      ensures q.Some? && q.value != 0 ==>
        && Served(old(pool.heap), old(books), pool.heap, books, Block(q.value, m))
        && books.requested == old(books).requested + m
      ensures q == Some(0) ==> m == 0 && books == old(books) && pool.heap == old(pool.heap)
      ensures old(GrowsInPlace(p, 0, m)) ==> q == Some(p) && pool.heap == old(pool.heap)
    {
      if p == ptr && m <= end - ptr {
        LinkedHead(pool.heap, arenaHead, books.chain);
        if arenaHead != 0 {
          Bump(0, m);
        }
        NothingLent(pool.heap, pool.lent, old(books), books);
        return Some(p);
      }
      q := AllocRounded(m, at);
    }

    // As Realloc, from `size` bytes, `n` when rounded, to `m`, which is rounded already.
    method ReallocBlock(p: int, size: nat, n: nat, m: nat, at: int) returns (q: Option<int>)
      requires Valid() && pool.Valid() && 0 < size <= n <= m && n % 8 == 0 && m % 8 == 0
      requires Block(p, n) in books.blocks
      requires MapFits(pool.heap, at, Max(DEFAULT_SIZE, m))
      modifies this, pool
      ensures pool.Valid() && OthersKept(old(pool.heap), pool.heap, old(pool.lent), old(books), books)
      ensures LentFor(old(pool.lent), pool.lent, old(books), books)
      ensures Valid() <==> !(old(Strays(p, n)) && m > n && old(GrowsInPlace(p, n, m)))
      ensures !Valid() ==> q == Some(p) && p < begin < p + m && ptr == p + m
      ensures old(Tight()) ==> Valid() && Tight()
      ensures q == None ==> at == MAP_FAILED && books == old(books) && pool.heap == old(pool.heap)
      ensures q.Some? ==> q.value != 0
      ensures q.Some? && Valid() ==>
        Resized(old(pool.heap), old(books), pool.heap, books, Block(p, n), Block(q.value, m), size)
      ensures old(GrowsInPlace(p, n, m)) ==> q == Some(p) && pool.heap == old(pool.heap)
      ensures !old(GrowsInPlace(p, n, m)) && q.Some? ==> q.value != p && Block(p, n) in books.blocks
      ensures q.Some? && Valid() ==>
        books.requested == old(books).requested + m - if old(GrowsInPlace(p, n, m)) then n else 0
    {
      ghost var b := Block(p, n);
      if p + n == ptr {
        if end - ptr >= m - n {
          DifferenceOf8(m, n);
          ExtendOrStray(b, Block(p, m), m - n, size);
          NothingLent(pool.heap, pool.lent, old(books), books);
          return Some(p);
        }
      }
      q := ReallocByCopy(p, size, n, m, at);
    }

    method ExtendOrStray(ghost b: Block, ghost r: Block, delta: nat, ghost size: nat)
      requires Valid() && pool.Valid() && b in books.blocks && size <= b.size
      requires b.start + b.size == ptr && delta % 8 == 0 && delta <= end - ptr && r == Block(b.start, b.size + delta)
      modifies this`books, this`ptr
      ensures pool.Valid() && ptr == old(ptr) + delta && books.chain == old(books).chain && arenaHead != 0 && b.start > 0 && b.size > 0
      ensures Valid() <==> !(old(ptr) == begin && delta > 0)
      ensures begin < old(ptr) ==> Tight()
      ensures Valid() ==> books.requested == old(books).requested + delta
      ensures Valid() ==> Resized(pool.heap, old(books), pool.heap, books, b, r, size)
    {
      EndsAtPtr(pool.heap, pool.lent, arenaHead, begin, ptr, end, books, b);
      assert b.start > 0 && b.size > 0 by {
        assert BlockFits(b, books.blocks[b], books.used[books.blocks[b]]) && books.blocks[b] in books.chain;
      }
      if begin < ptr {
        Extend(b, delta, size);
      } else {
        ExtendStray(b, delta, size);
      }
    }

    method Extend(ghost b: Block, delta: nat, ghost size: nat)
      requires Valid() && pool.Valid() && b in books.blocks && size <= b.size && begin < ptr
      requires b.start + b.size == ptr && delta % 8 == 0 && delta <= end - ptr
      modifies this`books, this`ptr
      ensures Valid() && Tight() && books.chain == old(books).chain && ptr == old(ptr) + delta
      ensures books.requested == old(books).requested + delta
      ensures Resized(pool.heap, old(books), pool.heap, books, b, Block(b.start, b.size + delta), size)
    {
      ghost var k := books;
      Advance(b, delta);
      ExtendResizes(pool.heap, k, books, arenaHead, b, delta, size);
    }

    // The pointer moves although the block lies in another arena; the books know nothing of that.
    method ExtendStray(ghost b: Block, delta: nat, ghost size: nat)
      requires Valid() && pool.Valid() && b in books.blocks && size <= b.size && begin == ptr && arenaHead != 0
      requires b.start + b.size == ptr && delta % 8 == 0 && delta <= end - ptr
      modifies this`ptr
      ensures (Valid() <==> delta == 0) && ptr == old(ptr) + delta
      ensures delta == 0 ==> Resized(pool.heap, books, pool.heap, books, b, b, size)
    {
      assert |Content(pool.heap, books, b)| == b.size by {
        assert BlockFits(b, books.blocks[b], books.used[books.blocks[b]]);
        assert Clean(pool.heap[books.blocks[b]], books.used[books.blocks[b]]);
      }
      ptr := ptr + delta;
    }

    method Advance(ghost b: Block, delta: nat)
      requires Valid() && pool.Valid() && b in books.blocks && begin < ptr
      requires b.start + b.size == ptr && delta % 8 == 0 && delta <= end - ptr
      modifies this`books, this`ptr
      ensures Valid() && Tight() && ptr == old(ptr) + delta && Readable(pool.heap, old(books))
      ensures arenaHead in old(books).used && books == Extended(arenaHead, old(books), b, delta)
      ensures old(books).blocks[b] == arenaHead && old(ptr) == arenaHead + old(books).used[arenaHead]
      ensures delta > 0 ==> Block(b.start, b.size + delta) !in old(books).blocks
    {
      EndsAtPtr(pool.heap, pool.lent, arenaHead, begin, ptr, end, books, b);
      ExtendFits(pool.heap, pool.lent, arenaHead, begin, ptr, end, books, b, delta);
      HeadBalanced(pool.heap, arenaHead, books, delta);
      books := Extended(arenaHead, books, b, delta);
      ptr := ptr + delta;
    }

    method ReallocByCopy(p: int, size: nat, n: nat, m: nat, at: int) returns (q: Option<int>)
      requires Valid() && pool.Valid() && 0 < size <= n <= m && m % 8 == 0
      requires Block(p, n) in books.blocks
      requires MapFits(pool.heap, at, Max(DEFAULT_SIZE, m))
      modifies this, pool
      ensures Valid() && pool.Valid() && OthersKept(old(pool.heap), pool.heap, old(pool.lent), old(books), books)
      ensures LentFor(old(pool.lent), pool.lent, old(books), books)
      ensures old(Tight()) ==> Tight()
      ensures q == None ==> at == MAP_FAILED && books == old(books) && pool.heap == old(pool.heap)
      ensures q.Some? ==>
        && q.value != 0 && q.value != p && Block(p, n) in books.blocks
        && books.requested == old(books).requested + m
        && Resized(old(pool.heap), old(books), pool.heap, books, Block(p, n), Block(q.value, m), size)
    {
      ghost var b, h, k, lent := Block(p, n), pool.heap, books, pool.lent;
      q := AllocRounded(m, at);
      if q.Some? {
        ghost var lends := LentFor(lent, pool.lent, k, books);
        CopyBytes(q.value, p, size, h, k, lent, b, Block(q.value, m));
        assert lends == LentFor(lent, pool.lent, k, books);
      }
    }

    // Copies into the new block r; the source block b still has the content it had in heap h.
    method CopyBytes(q: int, p: int, size: nat, ghost h: Heap, ghost k: Books, ghost lent: set<Ptr>,
                     ghost b: Block, ghost r: Block)
      requires Valid() && pool.Valid() && p == b.start && q == r.start && OthersKept(h, pool.heap, lent, k, books)
      requires Served(h, k, pool.heap, books, r) && b in k.blocks && size <= b.size && size <= r.size && r.size > 0
      modifies pool`heap
      ensures Valid() && pool.Valid() && OthersKept(h, pool.heap, lent, k, books)
      ensures q != p && b in books.blocks && Resized(h, k, pool.heap, books, b, r, size)
    {
      ghost var g := pool.heap;
      BlocksApart(g, books, books, b, r);
      Memcpy(q, p, size, h, k, b, r);
      OthersStillKept(h, g, pool.heap, lent, k, books);
      CopiedResizes(h, k, g, pool.heap, books, b, r, size);
    }

    method Memcpy(q: int, p: int, size: nat, ghost h: Heap, ghost k: Books, ghost b: Block, ghost r: Block)
      requires Valid() && pool.Valid() && p == b.start && q == r.start
      requires Served(h, k, pool.heap, books, r) && b in k.blocks && size <= b.size && size <= r.size && r.size > 0
      modifies pool`heap
      ensures Valid() && pool.Valid()
      ensures b in books.blocks && Readable(old(pool.heap), books)
      ensures
        var a := books.blocks[r];
        && a in old(pool.heap) && a in books.chain
        && 0 <= q - a && q - a + size <= |old(pool.heap)[a].bytes|
        && pool.heap == Splice(old(pool.heap), a, q - a, SourceOf(old(pool.heap), books, b, size))
    {
      ghost var g, source, target := pool.heap, books.blocks[b], books.blocks[r];
      CopyFits(h, k, g, pool.lent, arenaHead, begin, ptr, end, books, b, r, size, pool.freeArenas, pool.free);
      assert BlockFits(b, source, books.used[source]) && Clean(g[source], books.used[source]);
      assert Clean(g[target], books.used[target]);
      pool.Copy(q, p, size, target, source, SourceOf(g, books, b, size));
    }

    /** A caller writes into a block it was given. */
    method Write(ghost b: Block, address: int, value: int)
      requires Valid() && pool.Valid() && b in books.blocks && b.start <= address < b.start + b.size
      modifies pool`heap
      ensures Valid() && pool.Valid()
      ensures pool.heap == Splice(old(pool.heap), books.blocks[b], address - books.blocks[b], [value])
    {
      WriteFits(pool.heap, pool.lent, arenaHead, begin, ptr, end, books, b, address, value, pool.freeArenas, pool.free);
      pool.Poke(address, value, books.blocks[b]);
    }

    /** The sum over all arenas is what was asked for, rounded and padded. */
    method BytesUsed() returns (total: nat)
      requires Valid()
      ensures total == books.requested
    {
      total := 0;
      if arenaHead != 0 {
        LinkedTail(pool.heap, arenaHead, books.chain);
        total := ptr - begin;
        var current := pool.heap[arenaHead].next;
        ghost var rest := books.chain[1..];
        assert forall a | a in rest :: a in books.chain;
        while current != 0
          invariant Linked(pool.heap, current, rest)
          invariant forall a | a in rest :: a in books.chain && a != arenaHead
          invariant total + Total(rest, books.used) == books.requested
          decreases |rest|
        {
          LinkedHead(pool.heap, current, rest);
          LinkedTail(pool.heap, current, rest);
          total := total + pool.heap[current].bytesAllocated;
          current := pool.heap[current].next;
          rest := rest[1..];
        }
        LinkedHead(pool.heap, current, rest);
      } else {
        LinkedHead(pool.heap, arenaHead, books.chain);
      }
    }

    /** The destructor gives the whole chain back to the pool. */
    method Destroy()
      requires Valid() && pool.Valid()
      modifies pool
      ensures pool.Valid() && pool.free == books.chain + old(pool.free)
      ensures forall a :: a in pool.lent <==> a in old(pool.lent) && a !in books.chain
      ensures pool.heap.Keys == old(pool.heap).Keys
      ensures forall a | a in pool.heap && a !in books.chain :: pool.heap[a] == old(pool.heap)[a]
      ensures forall a | a in books.chain :: pool.heap[a].bytes == old(pool.heap)[a].bytes &&
                                             pool.heap[a].bytesAllocated == books.used[a]
    {
      if arenaHead != 0 {
        CountUpdated(pool.heap, pool.lent, arenaHead, begin, ptr, end, books);
        ghost var g := pool.heap;
        pool.heap := pool.heap[arenaHead := pool.heap[arenaHead].(bytesAllocated := ptr - begin)];
        PoolFrame(g, pool.heap, pool.freeArenas, pool.free, pool.lent);
      }
      LinkedHead(pool.heap, arenaHead, books.chain);
      pool.FreeArenaChain(arenaHead, books.chain);
    }
  }

  // ----- what a request for no bytes can do

  /** A new arena that nothing is used of, mapped right where a block ends: that block now ends at the pointer
      without lying in the current arena. */
  lemma ZeroRequestStrays(h: Heap, lent: set<Ptr>, head: Ptr, begin: int, ptr: int, end: int, k: Books, at: Ptr, b: Block)
    requires AllocFits(h, lent, head, begin, ptr, end, k) && RegionsFit(h)
    requires at > 0 && at % 16 == 0 && at !in h && b in k.blocks && b.start + b.size == at
    requires RegionsFit(h[at := NewArena(DEFAULT_SIZE)])
    ensures ptr >= begin && (head != 0 ==> head in h)
    ensures
      var g, l := Push(h[at := NewArena(DEFAULT_SIZE)], head, at, ptr - begin), WithFirst(k, at, 0);
      && AllocFits(g, lent + {at}, at, at, at, at + DEFAULT_SIZE, l)
      && b in l.blocks && l.blocks[b] != at
  {
    var k1 := h[at := NewArena(DEFAULT_SIZE)];
    LinkedHead(h, head, k.chain);
    AllocFrame(h, k1, lent, lent + {at}, head, begin, ptr, end, k);
    FirstFits(k1, lent + {at}, head, begin, ptr, end, k, at, 0);
  }

  // An allocator that has filled an arena at C, and one that is 8 bytes longer at A.
  const C: Ptr := DEFAULT_SIZE
  const A: Ptr := 4 * DEFAULT_SIZE
  const LONG: nat := DEFAULT_SIZE + 8

  function FilledHeap(): Heap {
    map[C := NewArena(DEFAULT_SIZE).(bytesAllocated := DEFAULT_SIZE), A := NewArena(LONG).(next := C)]
  }

  function FilledBooks(): Books {
    Books([A, C], map[A := LONG, C := DEFAULT_SIZE],
          map[Block(A, LONG) := A, Block(C, DEFAULT_SIZE) := C], LONG + DEFAULT_SIZE)
  }

  lemma FilledChain()
    ensures ChainFits(FilledHeap(), A, FilledBooks().chain, FilledBooks().used) && RegionsFit(FilledHeap())
  {
    var h, chain := FilledHeap(), FilledBooks().chain;
    assert LinkAt(h, chain, 0) && LinkAt(h, chain, 1);
    assert Below(h, C, A);
  }

  lemma FilledBlocks()
    ensures BlocksFit(FilledBooks().blocks, FilledBooks().used) && Balanced(FilledBooks())
  {
    var k := FilledBooks();
    assert k.chain[1..] == [C] && k.chain[1..][1..] == [];
    assert BlockFits(Block(A, LONG), A, LONG) && BlockFits(Block(C, DEFAULT_SIZE), C, DEFAULT_SIZE);
    assert Total([C], k.used) == DEFAULT_SIZE + Total([], k.used);
  }

  /** It is what taking first the one and then the other leaves, for one block each. */
  lemma FilledByTwoRequests()
    ensures
      var h := Push(map[C := NewArena(DEFAULT_SIZE)], 0, C, 0);
      FilledHeap() == Push(h[A := NewArena(LONG)], C, A, DEFAULT_SIZE)
    ensures FilledBooks() == WithFirst(WithFirst(Books([], map[], map[], 0), C, DEFAULT_SIZE), A, LONG)
  {
  }

  /** In this state the pointer needs padding that there is no room for, and a new arena can be mapped right
      behind the block at C. */
  lemma FilledFits()
    ensures
      var h, k, at := FilledHeap(), FilledBooks(), C + DEFAULT_SIZE;
      && AllocFits(h, {A, C}, A, A, A + LONG, A + LONG, k) && Balanced(k) && RegionsFit(h)
      && Padding16(A + LONG) > 0 && MapFits(h, at, DEFAULT_SIZE) && at !in h
      && Block(C, DEFAULT_SIZE) in k.blocks
  {
    FilledChain();
    FilledBlocks();
  }

  /** So after a 16-aligned request for no bytes the block at C ends at the pointer and lies elsewhere. */
  lemma SomeBlockStrays()
    ensures exists h, lent, head, begin, ptr, end, k, b ::
      && AllocFits(h, lent, head, begin, ptr, end, k) && head != 0
      && b in k.blocks && b.start + b.size == ptr == begin && k.blocks[b] != head
  {
    FilledFits();
    var h, at, b := FilledHeap(), C + DEFAULT_SIZE, Block(C, DEFAULT_SIZE);
    ArenaAdded(h, at, DEFAULT_SIZE);
    ZeroRequestStrays(h, {A, C}, A, A, A + LONG, A + LONG, FilledBooks(), at, b);
    var g, l := Push(h[at := NewArena(DEFAULT_SIZE)], A, at, LONG), WithFirst(FilledBooks(), at, 0);
    assert AllocFits(g, {A, C} + {at}, at, at, at, at + DEFAULT_SIZE, l);
  }

  lemma ArenaAdded(h: Heap, at: Ptr, size: nat)
    requires RegionsFit(h) && MapFits(h, at, size) && at != MAP_FAILED && at !in h
    ensures RegionsFit(h[at := NewArena(size)])
  {
    var k := h[at := NewArena(size)];
    forall p, q ensures Below(k, p, q) {
      assert Below(h, p, q);
    }
  }

  // ----- no two blocks overlap

  /** Blocks of one allocator, and blocks of allocators without common arenas, never overlap. */
  lemma BlocksApart(h: Heap, k: Books, l: Books, b: Block, c: Block)
    requires RegionsFit(h) && Readable(h, k) && Readable(h, l)
    requires b in k.blocks && c in l.blocks
    requires (k == l && b != c) || forall a | a in k.used :: a !in l.used
    ensures Apart(b, c)
  {
    var p, q := k.blocks[b], l.blocks[c];
    assert BlockFits(b, p, k.used[p]) && BlockFits(c, q, l.used[q]) && Clean(h[p], k.used[p]) && Clean(h[q], l.used[q]);
    assert Separate(k.blocks, b, c) && Below(h, p, q) && Below(h, q, p);
  }
}
