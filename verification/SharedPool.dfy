/**
  * Any number of allocators drawing from one pool. What holds between their calls is stated once and kept
  * by every call, so it holds after every run of calls, constructions and destructions.
  */
module SharedPool {
  import opened Wrappers
  import opened Arenas

  predicate Disjoint(chain: seq<Ptr>, rest: seq<Ptr>) {
    forall a | a in chain :: a !in rest
  }

  /** What an allocator needs of the arenas. */
  ghost predicate Fits(x: ArenaAllocator, h: Heap, lent: set<Ptr>)
    reads x
  {
    AllocFits(h, lent, x.arenaHead, x.begin, x.ptr, x.end, x.books) && Balanced(x.books)
  }

  /** These allocators are in order, no two hold the same arena, and every arena lent is in the chain of one
      of them, or in `chain`, which belongs to none of them. */
  ghost predicate AllFit(pool: MemMapArenaPool, all: set<ArenaAllocator>, h: Heap, lent: set<Ptr>, chain: seq<Ptr>)
    reads all
  {
    && (forall x | x in all :: x.pool == pool && Fits(x, h, lent) && Disjoint(x.books.chain, chain))
    && (forall x, y | x in all && y in all && x != y :: Disjoint(x.books.chain, y.books.chain))
    && (forall a | a in lent :: a in chain || exists x :: x in all && a in x.books.chain)
  }

  ghost predicate Shared(pool: MemMapArenaPool, all: set<ArenaAllocator>)
    reads pool, all
  {
    pool.Valid() && AllFit(pool, all, pool.heap, pool.lent, [])
  }

  /** Every arena is in exactly one chain, that of the free arenas or that of one allocator, and the chains
      are acyclic: each follows `next` through all its arenas, once each. */
  lemma EveryArenaOnce(pool: MemMapArenaPool, all: set<ArenaAllocator>)
    requires Shared(pool, all)
    ensures forall a | a in pool.heap :: a in pool.free <==> !exists x :: x in all && a in x.books.chain
    ensures forall x, y, a | x in all && y in all && a in x.books.chain && a in y.books.chain :: x == y
    ensures Linked(pool.heap, pool.freeArenas, pool.free)
    ensures forall x | x in all :: Linked(pool.heap, x.arenaHead, x.books.chain)
    ensures forall x, a | x in all && a in x.books.chain :: a in pool.heap && a in pool.lent
  {
    forall x, a | x in all && a in x.books.chain ensures a in pool.heap && a in pool.lent {
      assert Fits(x, pool.heap, pool.lent);
    }
    forall x, y, a | x in all && y in all && a in x.books.chain && a in y.books.chain ensures x == y {
      assert x != y ==> Disjoint(x.books.chain, y.books.chain);
    }
  }

  /** No two blocks overlap, whoever they were handed to. */
  lemma BlocksNeverOverlap(pool: MemMapArenaPool, all: set<ArenaAllocator>, x: ArenaAllocator, y: ArenaAllocator,
                           b: Block, c: Block)
    requires Shared(pool, all) && x in all && y in all
    requires b in x.books.blocks && c in y.books.blocks && (x != y || b != c)
    ensures Apart(b, c)
  {
    assert Fits(x, pool.heap, pool.lent) && Fits(y, pool.heap, pool.lent);
    if x != y {
      assert Disjoint(x.books.chain, y.books.chain);
    }
    BlocksApart(pool.heap, x.books, y.books, b, c);
  }

  /** Everything past what is in use is zero, in the arenas of the allocators and in the free ones. */
  lemma UnusedIsZero(pool: MemMapArenaPool, all: set<ArenaAllocator>, x: ArenaAllocator)
    requires Shared(pool, all) && x in all
    ensures forall a | a in x.books.chain :: a in pool.heap && a in x.books.used && Clean(pool.heap[a], x.books.used[a])
    ensures forall a | a in pool.free :: a in pool.heap && Clean(pool.heap[a], pool.heap[a].bytesAllocated)
  {
    assert Fits(x, pool.heap, pool.lent);
  }

  // ----- what keeps it

  lemma WithoutOne(pool: MemMapArenaPool, all: set<ArenaAllocator>, h: Heap, lent: set<Ptr>, x: ArenaAllocator)
    requires AllFit(pool, all, h, lent, []) && x in all
    ensures AllFit(pool, all - {x}, h, lent, x.books.chain) && Fits(x, h, lent) && x.pool == pool
  {
    var rest := all - {x};
    forall a | a in lent && a !in x.books.chain ensures exists y :: y in rest && a in y.books.chain {
      var y :| y in all && a in y.books.chain;
      assert y in rest;
    }
  }

  lemma WithOneMore(pool: MemMapArenaPool, all: set<ArenaAllocator>, h: Heap, lent: set<Ptr>, x: ArenaAllocator)
    requires x in all && x.pool == pool && Fits(x, h, lent) && AllFit(pool, all - {x}, h, lent, x.books.chain)
    ensures AllFit(pool, all, h, lent, [])
  {
    var rest := all - {x};
    forall a | a in lent && a !in x.books.chain ensures exists y :: y in all && a in y.books.chain {
      var y :| y in rest && a in y.books.chain;
      assert y in all;
    }
    forall y, z | y in all && z in all && y != z ensures Disjoint(y.books.chain, z.books.chain) {
      assert y in rest || z in rest;
      assert y in rest ==> Disjoint(y.books.chain, x.books.chain);
      assert z in rest ==> Disjoint(z.books.chain, x.books.chain);
    }
  }

  lemma StillFits(x: ArenaAllocator, h: Heap, g: Heap, lent: set<Ptr>, now: set<Ptr>)
    requires Fits(x, h, lent)
    requires forall a | a in x.books.chain :: a in now && a in g && g[a] == h[a]
    ensures Fits(x, g, now)
  {
    LinkedFrame(h, g, x.arenaHead, x.books.chain);
    LinkedHead(h, x.arenaHead, x.books.chain);
  }

  /** A call of one allocator that changes nothing of the others' arenas, and takes into its chain exactly
      what the pool lends, leaves the others in order. */
  lemma CallKeeps(pool: MemMapArenaPool, rest: set<ArenaAllocator>, h: Heap, g: Heap, lent: set<Ptr>, now: set<Ptr>,
                  k: Books, l: Books)
    requires AllFit(pool, rest, h, lent, k.chain)
    requires OthersKept(h, g, lent, k, l) && LentFor(lent, now, k, l)
    ensures AllFit(pool, rest, g, now, l.chain)
  {
    forall x | x in rest ensures Fits(x, g, now) && Disjoint(x.books.chain, l.chain) {
      assert Fits(x, h, lent) && Disjoint(x.books.chain, k.chain);
      LinkedHead(h, x.arenaHead, x.books.chain);
      StillFits(x, h, g, lent, now);
    }
  }

  lemma WriteChangesOne(h: Heap, lent: set<Ptr>, k: Books, a: Ptr, offset: nat, value: int)
    requires a in k.chain && a in h && offset + 1 <= |h[a].bytes| && forall b | b in k.chain :: b in lent
    ensures OthersKept(h, Splice(h, a, offset, [value]), lent, k, k) && LentFor(lent, lent, k, k)
  {
  }

  /** When an allocator gives its chain back, the others stay in order. */
  lemma ReturnKeeps(pool: MemMapArenaPool, rest: set<ArenaAllocator>, h: Heap, g: Heap, lent: set<Ptr>, now: set<Ptr>,
                    chain: seq<Ptr>)
    requires AllFit(pool, rest, h, lent, chain) && forall a :: a in now <==> a in lent && a !in chain
    requires g.Keys == h.Keys && forall a | a in h && a !in chain :: g[a] == h[a]
    ensures AllFit(pool, rest, g, now, [])
  {
    forall x | x in rest ensures Fits(x, g, now) {
      assert Fits(x, h, lent) && Disjoint(x.books.chain, chain);
      StillFits(x, h, g, lent, now);
    }
  }

  /** When the pool changes nothing of the arenas it has lent, all allocators stay in order. */
  lemma PoolCallKeeps(pool: MemMapArenaPool, all: set<ArenaAllocator>, h: Heap, g: Heap, lent: set<Ptr>)
    requires AllFit(pool, all, h, lent, []) && forall a | a in lent && a in h :: a in g && g[a] == h[a]
    ensures AllFit(pool, all, g, lent, [])
  {
    forall x | x in all ensures Fits(x, g, lent) {
      assert Fits(x, h, lent);
      StillFits(x, h, g, lent, lent);
    }
  }

  // ----- the calls

  method Open(ghost all: set<ArenaAllocator>, pool: MemMapArenaPool) returns (x: ArenaAllocator)
    requires Shared(pool, all)
    ensures fresh(x) && x.pool == pool && x.books.chain == [] && Shared(pool, all + {x})
  {
    x := new ArenaAllocator(pool);
    assert all + {x} - {x} == all;
    WithOneMore(pool, all + {x}, pool.heap, pool.lent, x);
  }

  method Alloc(ghost all: set<ArenaAllocator>, x: ArenaAllocator, bytes: nat, at: int) returns (p: Option<int>)
    requires Shared(x.pool, all) && x in all && MapFits(x.pool.heap, at, Max(DEFAULT_SIZE, Align8(bytes)))
    modifies x, x.pool
    ensures Shared(x.pool, all)
    ensures p.Some? && p.value != 0 ==>
      p.value % 8 == 0 && Served(old(x.pool.heap), old(x.books), x.pool.heap, x.books, Block(p.value, Align8(bytes)))
  {
    ghost var pool, rest, h, lent, k := x.pool, all - {x}, x.pool.heap, x.pool.lent, x.books;
    WithoutOne(pool, all, h, lent, x);
    p := x.Alloc(bytes, at);
    ghost var undisturbed := AllFit(pool, rest, h, lent, k.chain);
    assert undisturbed;
    CallKeeps(pool, rest, h, pool.heap, lent, pool.lent, k, x.books);
    WithOneMore(pool, all, pool.heap, pool.lent, x);
  }

  method AllocAlign16(ghost all: set<ArenaAllocator>, x: ArenaAllocator, bytes: nat, at: int) returns (p: Option<int>)
    requires Shared(x.pool, all) && x in all && bytes % 16 == 0 && MapFits(x.pool.heap, at, Max(DEFAULT_SIZE, bytes))
    modifies x, x.pool
    ensures Shared(x.pool, all)
    ensures p.Some? && p.value != 0 ==>
      p.value % 16 == 0 && Served(old(x.pool.heap), old(x.books), x.pool.heap, x.books, Block(p.value, bytes))
  {
    ghost var pool, rest, h, lent, k := x.pool, all - {x}, x.pool.heap, x.pool.lent, x.books;
    WithoutOne(pool, all, h, lent, x);
    p := x.AllocAlign16(bytes, at);
    ghost var undisturbed := AllFit(pool, rest, h, lent, k.chain);
    assert undisturbed;
    CallKeeps(pool, rest, h, pool.heap, lent, pool.lent, k, x.books);
    WithOneMore(pool, all, pool.heap, pool.lent, x);
  }

  /** Only the extension of a block that strays breaks it. */
  method Realloc(ghost all: set<ArenaAllocator>, x: ArenaAllocator, p: int, size: nat, newSize: nat, at: int)
    returns (q: Option<int>)
    requires Shared(x.pool, all) && x in all && newSize >= size && p >= 0
    requires size > 0 ==> Block(p, Align8(size)) in x.books.blocks
    requires MapFits(x.pool.heap, at, Max(DEFAULT_SIZE, Align8(newSize)))
    modifies x, x.pool
    ensures
      var n, m := Align8(size), Align8(newSize);
      x.Valid() <==> !(old(x.Strays(p, n)) && m > n && old(x.GrowsInPlace(p, n, m)))
    ensures old(x.Tight()) ==> x.Valid() && x.Tight()
    ensures Shared(x.pool, all) <==> x.Valid()
  {
    ghost var pool, rest, h, lent, k := x.pool, all - {x}, x.pool.heap, x.pool.lent, x.books;
    WithoutOne(pool, all, h, lent, x);
    q := x.Realloc(p, size, newSize, at);
    ghost var undisturbed := AllFit(pool, rest, h, lent, k.chain);
    assert undisturbed;
    CallKeeps(pool, rest, h, pool.heap, lent, pool.lent, k, x.books);
    if x.Valid() {
      WithOneMore(pool, all, pool.heap, pool.lent, x);
    } else if Shared(pool, all) {
      WithoutOne(pool, all, pool.heap, pool.lent, x);
    }
  }

  method Write(ghost all: set<ArenaAllocator>, x: ArenaAllocator, ghost b: Block, address: int, value: int)
    requires Shared(x.pool, all) && x in all && b in x.books.blocks && b.start <= address < b.start + b.size
    modifies x.pool`heap
    ensures Shared(x.pool, all)
  {
    ghost var pool, rest, h, lent := x.pool, all - {x}, x.pool.heap, x.pool.lent;
    WithoutOne(pool, all, h, lent, x);
    ghost var a := x.books.blocks[b];
    x.Write(b, address, value);
    ghost var undisturbed := AllFit(pool, rest, h, lent, x.books.chain);
    assert undisturbed;
    WriteChangesOne(h, lent, x.books, a, address - a, value);
    CallKeeps(pool, rest, h, pool.heap, lent, lent, x.books, x.books);
    WithOneMore(pool, all, pool.heap, pool.lent, x);
  }

  method Destroy(ghost all: set<ArenaAllocator>, x: ArenaAllocator)
    requires Shared(x.pool, all) && x in all
    modifies x.pool
    ensures Shared(x.pool, all - {x}) && x.pool.free == x.books.chain + old(x.pool.free)
  {
    ghost var pool, rest, h, lent := x.pool, all - {x}, x.pool.heap, x.pool.lent;
    WithoutOne(pool, all, h, lent, x);
    x.Destroy();
    ghost var undisturbed := AllFit(pool, rest, h, lent, x.books.chain);
    assert undisturbed;
    ReturnKeeps(pool, rest, h, pool.heap, lent, pool.lent, x.books.chain);
  }

  method TrimMaps(ghost all: set<ArenaAllocator>, pool: MemMapArenaPool)
    requires Shared(pool, all)
    modifies pool`heap
    ensures Shared(pool, all) && forall a | a in pool.free :: Clean(pool.heap[a], 0)
  {
    ghost var h := pool.heap;
    pool.TrimMaps();
    PoolCallKeeps(pool, all, h, pool.heap, pool.lent);
  }

  /** Afterwards there are no arenas but those of the allocators. */
  method ReclaimMemory(ghost all: set<ArenaAllocator>, pool: MemMapArenaPool)
    requires Shared(pool, all)
    modifies pool
    ensures Shared(pool, all) && pool.free == []
    ensures forall a :: a in pool.heap <==> exists x :: x in all && a in x.books.chain
  {
    ghost var h := pool.heap;
    pool.ReclaimMemory();
    PoolCallKeeps(pool, all, h, pool.heap, pool.lent);
    EveryArenaOnce(pool, all);
  }
}
