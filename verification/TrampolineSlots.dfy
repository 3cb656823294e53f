/** The pool hands out slots that trampolines fit into. */
module TrampolineSlots {
  import opened Wrappers
  import opened TrampolineCode
  import Pool = TrampolinePool

  function SlotLayout(arch: Arch, pageSize: nat): Pool.Layout {
    Pool.Layout(pageSize, arch.SlotSize())
  }

  lemma SlotSizeFits(arch: Arch)
    ensures |arch.Template()| <= arch.SlotSize() <= 22 && arch.SlotSize() % 2 == 0 && arch.SlotSize() > 0
  {
  }

  lemma EvenStart(arch: Arch, pageSize: nat, a: Pool.Slot)
    requires a.page % 2 == 0
    ensures a.Start(SlotLayout(arch, pageSize)) % 2 == 0
  {
    var half := arch.SlotSize() / 2;
    SlotSizeFits(arch);
    assert a.index * arch.SlotSize() == 2 * (a.index * half);
  }

  lemma EvenPage(pageSize: nat, page: int)
    requires (pageSize == 4096 || pageSize == 16384) && page % pageSize == 0
    ensures page % 2 == 0
  {
    if pageSize == 4096 {
    } else {
      assert pageSize == 16384;
    }
  }

  ghost predicate GoodRun(l: Pool.Layout, threads: nat, steps: seq<Pool.Step>) {
    l.Valid() && Pool.Runs(l, Pool.Initial(threads), steps) && Pool.NeverCarries(l, Pool.Initial(threads), steps)
  }

  ghost function Taken(l: Pool.Layout, threads: nat, steps: seq<Pool.Step>): seq<Pool.Slot>
    requires GoodRun(l, threads, steps)
  {
    Pool.End(l, Pool.Initial(threads), steps).taken
  }

  /**
    * Whatever threads interleave, as long as the counter never carries, every slot handed out starts at
    * an even address inside a mapped page and has room for the whole code of the architecture. So the
    * low bit of a recorded slot is free to say that it is one past the start.
    */
  lemma SlotsAreEven(arch: Arch, pageSize: nat, threads: nat, steps: seq<Pool.Step>, i: nat)
    requires var l := SlotLayout(arch, pageSize); GoodRun(l, threads, steps) && i < |Taken(l, threads, steps)|
    ensures
      var l := SlotLayout(arch, pageSize);
      var a := Taken(l, threads, steps)[i];
      && a.page in Pool.End(l, Pool.Initial(threads), steps).mapped
      && 0 < a.page <= a.Start(l) && a.End(l) <= a.page + pageSize
      && a.Start(l) % 2 == 0 && a.Start(l) + |arch.Template()| <= a.End(l)
  {
    var l := SlotLayout(arch, pageSize);
    Pool.InitialInv(l, threads);
    Pool.RunKeepsInv(l, Pool.Initial(threads), steps);
    var a := Taken(l, threads, steps)[i];
    Pool.SlotsLieInMappedPages(l, threads, steps, a);
    EvenPage(pageSize, a.page);
    EvenStart(arch, pageSize, a);
    SlotSizeFits(arch);
  }

  lemma SlotsApart(l: Pool.Layout, threads: nat, steps: seq<Pool.Step>, i: nat, j: nat)
    requires GoodRun(l, threads, steps) && i < |Taken(l, threads, steps)| && j < |Taken(l, threads, steps)| && i != j
    ensures var a, b := Taken(l, threads, steps)[i], Taken(l, threads, steps)[j];
            a.End(l) <= b.Start(l) || b.End(l) <= a.Start(l)
  {
    if i < j {
      Pool.SlotsAreDisjoint(l, threads, steps, i, j);
    } else {
      Pool.SlotsAreDisjoint(l, threads, steps, j, i);
    }
  }

  // Writing a trampoline at `a` puts it there and changes nothing at `b`.
  ghost predicate WritesOnly(memory: seq<bv8>, code: seq<bv8>, a: int, b: int) {
    && 0 <= a <= a + |code| <= |memory| && 0 <= b <= b + |code| <= |memory|
    && var after := Put(memory, a, code);
       after[a..a + |code|] == code && after[b..b + |code|] == memory[b..b + |code|]
  }

  lemma PutApart(memory: seq<bv8>, a: nat, b: nat, bytes: seq<bv8>)
    requires a + |bytes| <= |memory| && b + |bytes| <= |memory| && (a + |bytes| <= b || b + |bytes| <= a)
    ensures WritesOnly(memory, bytes, a, b)
  {
    PutSlice(memory, a, bytes, b, b + |bytes|);
  }

  /** Code written into one slot runs, and leaves the code in every other slot as it is. */
  lemma SlotsKeepCode(arch: Arch, pageSize: nat, threads: nat, steps: seq<Pool.Step>, i: nat, j: nat,
                      entry: bv8, memory: seq<bv8>, hook: bv64)
    requires
      var l := SlotLayout(arch, pageSize);
      && GoodRun(l, threads, steps)
      && var taken := Taken(l, threads, steps);
         i < |taken| && j < |taken| && i != j && taken[i].End(l) <= |memory| && taken[j].End(l) <= |memory|
    requires Fits(arch, entry, hook)
    ensures
      var l := SlotLayout(arch, pageSize);
      var taken := Taken(l, threads, steps);
      && WritesOnly(memory, Written(arch, entry, hook), taken[i].Start(l), taken[j].Start(l))
      && Runs(arch, Written(arch, entry, hook)) == Some(Jump(hook, entry))
  {
    var l := SlotLayout(arch, pageSize);
    var taken := Taken(l, threads, steps);
    SlotsAreEven(arch, pageSize, threads, steps, i);
    SlotsAreEven(arch, pageSize, threads, steps, j);
    SlotsApart(l, threads, steps, i, j);
    PutApart(memory, taken[i].Start(l), taken[j].Start(l), Written(arch, entry, hook));
    WrittenRuns(arch, entry, hook);
  }
}
