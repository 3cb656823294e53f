/**
  * The pool that hands out code slots for trampolines. One atomic word holds the address of the
  * current page in its high bits and the number of claims on that page in its low bits; a flag
  * guards the slow path that maps the next page. Every step below is one atomic access of
  * GenerateTrampolineFor, so a sequence of steps is an interleaving of any number of threads.
  */
module TrampolinePool {
  /** The page size fixes the width of the claim counter: 14 bits on 16K pages, 12 bits otherwise. */
  datatype Layout = Layout(pageSize: nat, trampolineSize: nat) {
    predicate Valid() {
      (pageSize == 4096 || pageSize == 16384) && 0 < trampolineSize <= pageSize
    }

    function PerPage(): nat
      requires Valid()
    {
      pageSize / trampolineSize
    }

    /** The claim counter of a pool word, and the page address around it. */
    function Count(word: int): nat
      requires Valid()
    {
      word % pageSize
    }

    function Page(word: int): int
      requires Valid()
    {
      word - word % pageSize
    }
  }

  lemma SomeSlots(l: Layout)
    requires l.Valid()
    ensures l.PerPage() >= 1
  {
  }

  /** The index-th slot of a page, as a thread computes it before writing code there. */
  datatype Slot = Slot(page: int, index: nat) {
    function Start(l: Layout): int { page + index * l.trampolineSize }
    function End(l: Layout): int { Start(l) + l.trampolineSize }
  }

  /** Where a thread is: outside, or before the named access of the loop. */
  datatype Pc =
    | Idle           // not in GenerateTrampolineFor
    | Fetching       // before fetch_add on the pool word
    | Full           // saw no page or a full one; before test_and_set
    | Waiting        // lost test_and_set; in wait
    | Holding        // won test_and_set; before mmap
    | Mapped(page: int)  // before the store of the new page
    | Stored         // before the clear that publishes the new page
    | Failed         // mmap failed; before the clear and the empty result

  predicate InSection(pc: Pc) {
    pc.Holding? || pc.Mapped? || pc.Stored? || pc.Failed?
  }

  /**
    * History that no thread reads: the page stored last, who stored it, who took the flag last, how
    * often each thread has claimed past the end since that store, how often mapping has failed, and which
    * thread obtained each slot.
    */
  datatype History = History(page: int, storer: nat, owner: nat, over: seq<nat>, fails: nat, takers: seq<nat>)

  /** `taken` lists the slots in the order in which threads obtained them. */
  datatype State = State(pool: int, lock: bool, pcs: seq<Pc>, mapped: set<int>, taken: seq<Slot>, past: History)

  datatype Step =
    | Call(t: nat)
    | FetchAdd(t: nat)
    | TestAndSet(t: nat)
    | Wake(t: nat)
    | Map(t: nat, page: int)
    | MapFails(t: nat)
    | Store(t: nat)
    | Clear(t: nat)

  function Zeros(n: nat): seq<nat> { seq(n, i => 0) }

  function Initial(threads: nat): State {
    State(0, false, seq(threads, i => Idle), {}, [], History(0, 0, 0, Zeros(threads), 0, []))
  }

  predicate Shaped(s: State) {
    |s.past.over| == |s.pcs|
  }

  predicate Enabled(l: Layout, s: State, a: Step)
    requires l.Valid()
  {
    Shaped(s) && a.t < |s.pcs| &&
    match a
    case Call(t) => s.pcs[t].Idle?
    case FetchAdd(t) => s.pcs[t].Fetching?
    case TestAndSet(t) => s.pcs[t].Full?
    case Wake(t) => s.pcs[t].Waiting? && !s.lock
    case Map(t, page) => s.pcs[t].Holding? && page > 0 && page % l.pageSize == 0 && page !in s.mapped
    case MapFails(t) => s.pcs[t].Holding?
    case Store(t) => s.pcs[t].Mapped?
    case Clear(t) => s.pcs[t].Stored? || s.pcs[t].Failed?
  }

  function Next(l: Layout, s: State, a: Step): State
    requires l.Valid() && Enabled(l, s, a)
  {
    match a
    case Call(t) => s.(pcs := s.pcs[t := Fetching])
    case FetchAdd(t) => Fetched(l, s, t)
    case TestAndSet(t) =>
      if s.lock then s.(pcs := s.pcs[t := Waiting])
      else s.(lock := true, pcs := s.pcs[t := Holding], past := s.past.(owner := t))
    case Wake(t) => s.(pcs := s.pcs[t := Fetching])
    case Map(t, page) => s.(pcs := s.pcs[t := Mapped(page)], mapped := s.mapped + {page})
    case MapFails(t) => s.(pcs := s.pcs[t := Failed], past := s.past.(fails := s.past.fails + 1))
    case Store(t) =>
      var page := s.pcs[t].page;
      // The storing thread keeps slot 0 for itself and publishes the count 1.
      s.(pool := page + 1,
         pcs := s.pcs[t := Stored],
         taken := s.taken + [Slot(page, 0)],
         past := History(page, t, s.past.owner, Zeros(|s.pcs|), 0, s.past.takers + [t]))
    case Clear(t) => s.(lock := false, pcs := s.pcs[t := Idle])
  }

  function Fetched(l: Layout, s: State, t: nat): State
    requires l.Valid() && Shaped(s) && t < |s.pcs|
  {
    var count := l.Count(s.pool);
    var page := l.Page(s.pool);
    if page == 0 || count >= l.PerPage() then
      s.(pool := s.pool + 1, pcs := s.pcs[t := Full],
         past := s.past.(over := s.past.over[t := s.past.over[t] + 1]))
    else
      s.(pool := s.pool + 1, pcs := s.pcs[t := Idle], taken := s.taken + [Slot(page, count)],
         past := s.past.(takers := s.past.takers + [t]))
  }

  // ----- runs

  ghost predicate Runs(l: Layout, s: State, steps: seq<Step>)
    requires l.Valid()
    decreases |steps|
  {
    steps == [] || (Enabled(l, s, steps[0]) && Runs(l, Next(l, s, steps[0]), steps[1..]))
  }

  ghost function End(l: Layout, s: State, steps: seq<Step>): State
    requires l.Valid() && Runs(l, s, steps)
    decreases |steps|
  {
    if steps == [] then s else End(l, Next(l, s, steps[0]), steps[1..])
  }

  /** No claim of the run overflows the counter into the page address. */
  ghost predicate NeverCarries(l: Layout, s: State, steps: seq<Step>)
    requires l.Valid() && Runs(l, s, steps)
    decreases |steps|
  {
    steps == [] ||
    ((steps[0].FetchAdd? ==> l.Count(s.pool) + 1 < l.pageSize) &&
     NeverCarries(l, Next(l, s, steps[0]), steps[1..]))
  }

  /** How many mappings fail in a run. */
  function Failures(steps: seq<Step>): nat {
    if steps == [] then 0 else (if steps[0].MapFails? then 1 else 0) + Failures(steps[1..])
  }

  // ----- what every step keeps

  /** The flag admits one thread at a time. */
  ghost predicate Mutex(s: State) {
    Shaped(s) && (s.lock ==> s.past.owner < |s.pcs|) &&
    forall t | 0 <= t < |s.pcs| :: InSection(s.pcs[t]) <==> s.lock && t == s.past.owner
  }

  ghost predicate MappedFits(l: Layout, s: State) {
    l.Valid() && forall p | p in s.mapped :: p > 0 && p % l.pageSize == 0
  }

  /** The word still names the page stored last. */
  ghost predicate WordFits(l: Layout, s: State) {
    l.Valid() && l.Page(s.pool) == s.past.page && (s.past.page == 0 || s.past.page in s.mapped)
  }

  ghost predicate SlotFits(l: Layout, s: State, a: Slot) {
    l.Valid() && a.page in s.mapped && a.index < l.PerPage() &&
    (a.page == s.past.page ==> a.index < l.Count(s.pool))
  }

  ghost predicate Distinct(taken: seq<Slot>) {
    forall i, j | 0 <= i < j < |taken| :: taken[i] != taken[j]
  }

  /** A page mapped but not yet stored has given no slot. */
  ghost predicate Unused(s: State, t: nat)
    requires t < |s.pcs|
  {
    s.pcs[t].Mapped? ==>
      s.pcs[t].page in s.mapped && s.pcs[t].page != s.past.page && s.pcs[t].page > 0 &&
      forall a | a in s.taken :: a.page != s.pcs[t].page
  }

  ghost predicate Inv(l: Layout, s: State) {
    Mutex(s) && MappedFits(l, s) && WordFits(l, s) &&
    (forall a | a in s.taken :: SlotFits(l, s, a)) && Distinct(s.taken) &&
    forall t | 0 <= t < |s.pcs| :: Unused(s, t)
  }

  lemma WordParts(l: Layout, page: int, count: nat)
    requires l.Valid() && page % l.pageSize == 0 && count < l.pageSize
    ensures l.Count(page + count) == count && l.Page(page + count) == page
  {
    if l.pageSize == 4096 {
    } else {
      assert l.pageSize == 16384;
    }
  }

  /** A claim leaves the page address alone exactly when the counter is not at its last value. */
  lemma FetchKeepsPage(l: Layout, word: int)
    requires l.Valid()
    ensures l.Page(word + 1) == l.Page(word) <==> l.Count(word) + 1 < l.pageSize
    ensures l.Count(word) + 1 < l.pageSize ==> l.Count(word + 1) == l.Count(word) + 1
  {
    if l.pageSize == 4096 {
    } else {
      assert l.pageSize == 16384;
    }
  }

  lemma AppendDistinct(taken: seq<Slot>, a: Slot)
    requires Distinct(taken) && a !in taken
    ensures Distinct(taken + [a])
  {
  }

  lemma FetchKeepsInv(l: Layout, s: State, t: nat)
    requires Inv(l, s) && Enabled(l, s, FetchAdd(t)) && l.Count(s.pool) + 1 < l.pageSize
    ensures Inv(l, Fetched(l, s, t))
  {
    FetchKeepsPage(l, s.pool);
    var v := Fetched(l, s, t);
    var a := Slot(l.Page(s.pool), l.Count(s.pool));
    assert a !in s.taken;
    AppendDistinct(s.taken, a);
    assert forall u | 0 <= u < |v.pcs| :: Unused(s, u) ==> Unused(v, u);
  }

  lemma StoreKeepsInv(l: Layout, s: State, t: nat)
    requires Inv(l, s) && Enabled(l, s, Store(t))
    ensures Inv(l, Next(l, s, Store(t)))
  {
    var v := Next(l, s, Store(t));
    var a := Slot(s.pcs[t].page, 0);
    assert Unused(s, t);
    AppendDistinct(s.taken, a);
    WordParts(l, a.page, 1);
    SomeSlots(l);
    forall b | b in v.taken ensures SlotFits(l, v, b) {
      assert b == a || SlotFits(l, s, b);
    }
    forall u | 0 <= u < |v.pcs| ensures !v.pcs[u].Mapped? {
      assert InSection(s.pcs[u]) <==> u == s.past.owner;
      assert InSection(s.pcs[t]) <==> t == s.past.owner;
    }
    assert Mutex(v);
  }

  lemma MapKeepsInv(l: Layout, s: State, t: nat, page: int)
    requires Inv(l, s) && Enabled(l, s, Map(t, page))
    ensures Inv(l, Next(l, s, Map(t, page)))
  {
    var v := Next(l, s, Map(t, page));
    assert forall b | b in v.taken :: SlotFits(l, s, b);
    forall u | 0 <= u < |v.pcs| ensures Unused(v, u) {
      assert InSection(s.pcs[u]) <==> u == s.past.owner;
      assert InSection(s.pcs[t]) <==> t == s.past.owner;
    }
  }

  lemma StepKeepsInv(l: Layout, s: State, a: Step)
    requires Inv(l, s) && Enabled(l, s, a)
    requires a.FetchAdd? ==> l.Count(s.pool) + 1 < l.pageSize
    ensures Inv(l, Next(l, s, a))
  {
    match a
    case FetchAdd(t) => FetchKeepsInv(l, s, t);
    case Store(t) => StoreKeepsInv(l, s, t);
    case Map(t, page) => MapKeepsInv(l, s, t, page);
    case _ =>
      var v := Next(l, s, a);
      assert forall u | 0 <= u < |v.pcs| :: Unused(s, u) ==> Unused(v, u);
      assert forall b | b in v.taken :: SlotFits(l, s, b);
  }

  lemma {:induction false} RunKeepsInv(l: Layout, s: State, steps: seq<Step>)
    requires Inv(l, s) && Runs(l, s, steps) && NeverCarries(l, s, steps)
    ensures Inv(l, End(l, s, steps))
    decreases |steps|
  {
    if steps != [] {
      StepKeepsInv(l, s, steps[0]);
      RunKeepsInv(l, Next(l, s, steps[0]), steps[1..]);
    }
  }

  lemma InitialInv(l: Layout, threads: nat)
    requires l.Valid()
    ensures Inv(l, Initial(threads))
  {
  }

  lemma DistinctSlotsDisjoint(l: Layout, s: State, a: Slot, b: Slot)
    requires Inv(l, s) && a in s.taken && b in s.taken && a != b
    ensures a.End(l) <= b.Start(l) || b.End(l) <= a.Start(l)
  {
    SlotInPage(l, a);
    SlotInPage(l, b);
    if a.page == b.page {
      if a.index < b.index {
        IndexOrder(l, a.index, b.index);
      } else {
        IndexOrder(l, b.index, a.index);
      }
    } else {
      PagesApart(l, a.page, b.page);
    }
  }

  lemma SlotInPage(l: Layout, a: Slot)
    requires l.Valid() && a.index < l.PerPage()
    ensures a.page <= a.Start(l) && a.End(l) <= a.page + l.pageSize
  {
    IndexOrder(l, a.index, l.PerPage());
    assert l.PerPage() * l.trampolineSize <= l.pageSize;
  }

  lemma IndexOrder(l: Layout, i: nat, j: nat)
    requires i < j
    ensures i * l.trampolineSize + l.trampolineSize <= j * l.trampolineSize
  {
    assert (i + 1) * l.trampolineSize <= j * l.trampolineSize;
  }

  lemma PagesApart(l: Layout, p: int, q: int)
    requires l.Valid() && p % l.pageSize == 0 && q % l.pageSize == 0 && p != q
    ensures p + l.pageSize <= q || q + l.pageSize <= p
  {
    if l.pageSize == 4096 {
    } else {
      assert l.pageSize == 16384;
    }
  }

  /**
    * In every run whose counter never carries, whatever threads interleave and however often mapping
    * fails, each slot handed out lies inside one mapped page.
    */
  lemma SlotsLieInMappedPages(l: Layout, threads: nat, steps: seq<Step>, a: Slot)
    requires l.Valid() && Runs(l, Initial(threads), steps) && NeverCarries(l, Initial(threads), steps)
    requires a in End(l, Initial(threads), steps).taken
    ensures a.page in End(l, Initial(threads), steps).mapped
    ensures a.page <= a.Start(l) && a.End(l) <= a.page + l.pageSize
  {
    InitialInv(l, threads);
    RunKeepsInv(l, Initial(threads), steps);
    SlotInPage(l, a);
  }

  /** In the same runs any two slots handed out are disjoint. */
  lemma SlotsAreDisjoint(l: Layout, threads: nat, steps: seq<Step>, i: nat, j: nat)
    requires l.Valid() && Runs(l, Initial(threads), steps) && NeverCarries(l, Initial(threads), steps)
    requires i < j < |End(l, Initial(threads), steps).taken|
    ensures
      var taken := End(l, Initial(threads), steps).taken;
      taken[i].End(l) <= taken[j].Start(l) || taken[j].End(l) <= taken[i].Start(l)
  {
    InitialInv(l, threads);
    RunKeepsInv(l, Initial(threads), steps);
    var s := End(l, Initial(threads), steps);
    DistinctSlotsDisjoint(l, s, s.taken[i], s.taken[j]);
  }

  /** As long as some call is under way, some thread inside can make a step. */
  lemma SomeThreadCanStep(l: Layout, threads: nat, steps: seq<Step>, t: nat)
    requires l.Valid() && Runs(l, Initial(threads), steps) && NeverCarries(l, Initial(threads), steps)
    requires t < |End(l, Initial(threads), steps).pcs| && !End(l, Initial(threads), steps).pcs[t].Idle?
    ensures exists a :: Enabled(l, End(l, Initial(threads), steps), a) && !a.Call?
  {
    InitialInv(l, threads);
    RunKeepsInv(l, Initial(threads), steps);
    var s := End(l, Initial(threads), steps);
    var u := if s.pcs[t].Waiting? && s.lock then s.past.owner else t;
    var a := match s.pcs[u]
      case Fetching => FetchAdd(u)
      case Full => TestAndSet(u)
      case Waiting => Wake(u)
      case Mapped(_) => Store(u)
      case Holding => MapFails(u)
      case _ => Clear(u);
    assert InSection(s.pcs[u]) || u == t;
    assert Enabled(l, s, a) && !a.Call?;
  }

  // ----- every call gets its slot

  /** How often a thread calls, and how often its mapping fails. */
  function Calls(steps: seq<Step>, t: nat): nat {
    if steps == [] then 0 else (if steps[0] == Call(t) then 1 else 0) + Calls(steps[1..], t)
  }

  function OwnFailures(steps: seq<Step>, t: nat): nat {
    if steps == [] then 0 else (if steps[0] == MapFails(t) then 1 else 0) + OwnFailures(steps[1..], t)
  }

  /** How many slots a thread has obtained. */
  function Obtained(takers: seq<nat>, t: nat): nat {
    if takers == [] then 0
    else Obtained(takers[..|takers| - 1], t) + if takers[|takers| - 1] == t then 1 else 0
  }

  /** Whether a thread is in a call that has neither obtained a slot nor failed. */
  function Waits(pc: Pc): nat {
    if pc.Idle? || pc.Stored? || pc.Failed? then 0 else 1
  }

  lemma ObtainedMore(takers: seq<nat>, u: nat, t: nat)
    ensures Obtained(takers + [u], t) == Obtained(takers, t) + if u == t then 1 else 0
  {
    assert (takers + [u])[..|takers|] == takers;
  }

  lemma StepBalances(l: Layout, s: State, a: Step, t: nat)
    requires l.Valid() && Enabled(l, s, a) && t < |s.pcs| && |s.past.takers| == |s.taken|
    ensures
      var v := Next(l, s, a);
      && |v.pcs| == |s.pcs| && |v.past.takers| == |v.taken|
      && Obtained(v.past.takers, t) + Waits(v.pcs[t]) + (if a == MapFails(t) then 1 else 0)
         == Obtained(s.past.takers, t) + Waits(s.pcs[t]) + (if a == Call(t) then 1 else 0)
  {
    ObtainedMore(s.past.takers, a.t, t);
  }

  lemma {:induction false} RunBalances(l: Layout, s: State, steps: seq<Step>, t: nat)
    requires l.Valid() && Runs(l, s, steps) && t < |s.pcs| && |s.past.takers| == |s.taken|
    ensures
      var v := End(l, s, steps);
      && |v.pcs| == |s.pcs| && |v.past.takers| == |v.taken|
      && Obtained(v.past.takers, t) + Waits(v.pcs[t]) + OwnFailures(steps, t)
         == Obtained(s.past.takers, t) + Waits(s.pcs[t]) + Calls(steps, t)
    decreases |steps|
  {
    if steps != [] {
      StepBalances(l, s, steps[0], t);
      RunBalances(l, Next(l, s, steps[0]), steps[1..], t);
    }
  }

  /**
    * In every run, carrying or not, each slot handed out belongs to one thread, and a thread has obtained
    * exactly as many as it has made calls, less its failed mappings and the call it is still waiting in.
    */
  lemma EveryCallGetsASlot(l: Layout, threads: nat, steps: seq<Step>, t: nat)
    requires l.Valid() && Runs(l, Initial(threads), steps) && t < threads
    ensures
      var s := End(l, Initial(threads), steps);
      && |s.past.takers| == |s.taken| && t < |s.pcs|
      && Obtained(s.past.takers, t) == Calls(steps, t) - OwnFailures(steps, t) -
                                       if s.pcs[t].Idle? || s.pcs[t].Stored? || s.pcs[t].Failed? then 0 else 1
  {
    RunBalances(l, Initial(threads), steps, t);
  }

  // ----- how far the counter can get

  function Sum(xs: seq<nat>): nat {
    if xs == [] then 0 else Sum(xs[..|xs| - 1]) + xs[|xs| - 1]
  }

  lemma {:induction false} SumUpdate(xs: seq<nat>, i: nat, x: nat)
    requires i < |xs|
    ensures Sum(xs[i := x]) == Sum(xs) - xs[i] + x
  {
    var n := |xs| - 1;
    if i == n {
      assert xs[i := x][..n] == xs[..n];
    } else {
      assert xs[i := x][..n] == xs[..n][i := x];
      SumUpdate(xs[..n], i, x);
    }
  }

  lemma {:induction false} SumZeros(n: nat)
    ensures Sum(Zeros(n)) == 0
  {
    if n > 0 {
      assert Zeros(n)[..n - 1] == Zeros(n - 1);
      SumZeros(n - 1);
    }
  }

  lemma {:induction false} SumAtMostEach(xs: seq<nat>, k: nat)
    requires forall i | 0 <= i < |xs| :: xs[i] <= k
    ensures Sum(xs) <= k * |xs|
  {
    if xs != [] {
      SumAtMostEach(xs[..|xs| - 1], k);
      assert k * |xs| == k * (|xs| - 1) + k;
    }
  }

  lemma SumBelowEach(xs: seq<nat>, i: nat, k: nat)
    requires i < |xs| && xs[i] < k && forall j | 0 <= j < |xs| :: xs[j] <= k
    ensures Sum(xs) < k * |xs|
  {
    SumUpdate(xs, i, k);
    SumAtMostEach(xs[i := k], k);
  }

  /** The thread in the section is about to clear the flag. */
  ghost predicate Ending(s: State) {
    s.lock && s.past.owner < |s.pcs| && (s.pcs[s.past.owner].Stored? || s.pcs[s.past.owner].Failed?)
  }

  /** A thread that cannot claim again before the next page is stored or the next mapping fails. */
  predicate Committed(s: State, t: nat)
    requires t < |s.pcs|
  {
    s.pcs[t].Full? || s.pcs[t].Holding? || s.pcs[t].Mapped? || (s.pcs[t].Waiting? && s.lock)
  }

  /** A thread that cannot claim again before the flag is cleared. */
  predicate Held(pc: Pc) {
    pc.Full? || pc.Waiting? || pc.Stored? || pc.Failed?
  }

  /** How often a thread can claim past the end of one page: once more for every mapping that failed, and
      once less when it stored the page. */
  function Limit(s: State, t: nat): nat {
    (if s.past.page != 0 && t == s.past.storer then 1 else 2) + s.past.fails
  }

  ghost predicate OverFits(s: State, t: nat)
    requires Shaped(s) && t < |s.pcs|
  {
    var over := s.past.over[t];
    if Ending(s) then over < Limit(s, t) && (over + 1 == Limit(s, t) ==> Held(s.pcs[t]))
    else over <= Limit(s, t) && (over == Limit(s, t) ==> Committed(s, t))
  }

  ghost predicate CountFits(l: Layout, s: State) {
    l.Valid() && Shaped(s) &&
    l.Count(s.pool) <= (if s.past.page == 0 then 0 else l.PerPage()) + Sum(s.past.over) &&
    (s.past.page != 0 ==> s.past.storer < |s.pcs|) &&
    forall t | 0 <= t < |s.pcs| :: OverFits(s, t)
  }

  lemma OverBelow(s: State, most: nat)
    requires Shaped(s) && 0 < |s.pcs| && (s.past.page != 0 ==> s.past.storer < |s.pcs|)
    requires s.past.fails <= most && forall t | 0 <= t < |s.pcs| :: OverFits(s, t)
    ensures Sum(s.past.over) <= (2 + most) * |s.pcs|
    ensures s.past.page != 0 ==> Sum(s.past.over) < (2 + most) * |s.pcs|
  {
    var k := 2 + most;
    forall t | 0 <= t < |s.pcs| ensures s.past.over[t] <= k {
      assert OverFits(s, t);
    }
    SumAtMostEach(s.past.over, k);
    if s.past.page != 0 {
      assert OverFits(s, s.past.storer);
      SumBelowEach(s.past.over, s.past.storer, k);
    }
  }

  lemma CountBelow(l: Layout, s: State, most: nat)
    requires CountFits(l, s) && 0 < |s.pcs| && s.past.fails <= most
    ensures l.Count(s.pool) < l.PerPage() + (2 + most) * |s.pcs|
  {
    SomeSlots(l);
    OverBelow(s, most);
  }

  lemma FetchKeepsOver(l: Layout, s: State, t: nat)
    requires Inv(l, s) && CountFits(l, s) && Enabled(l, s, FetchAdd(t))
    ensures forall u | 0 <= u < |s.pcs| :: OverFits(Fetched(l, s, t), u)
  {
    var v := Fetched(l, s, t);
    forall u | 0 <= u < |v.pcs| ensures OverFits(v, u) {
      assert OverFits(s, u);
      assert !InSection(s.pcs[t]);
    }
  }

  lemma FetchCannotCarry(l: Layout, s: State, t: nat, most: nat)
    requires Inv(l, s) && CountFits(l, s) && Enabled(l, s, FetchAdd(t))
    requires s.past.fails <= most && l.PerPage() + (2 + most) * |s.pcs| <= l.pageSize
    ensures
      var page, over := s.past.page, Fetched(l, s, t).past.over;
      && l.Count(s.pool) + 1 <= (if page == 0 then 0 else l.PerPage()) + Sum(over)
      && l.Count(s.pool) + 1 < l.pageSize
  {
    FetchKeepsOver(l, s, t);
    OverBelow(Fetched(l, s, t), most);
    SumUpdate(s.past.over, t, s.past.over[t] + 1);
    SomeSlots(l);
  }

  lemma FetchKeepsCount(l: Layout, s: State, t: nat, most: nat)
    requires Inv(l, s) && CountFits(l, s) && Enabled(l, s, FetchAdd(t))
    requires s.past.fails <= most && l.PerPage() + (2 + most) * |s.pcs| <= l.pageSize
    ensures l.Count(s.pool) + 1 < l.pageSize
    ensures CountFits(l, Fetched(l, s, t))
  {
    FetchKeepsOver(l, s, t);
    FetchCannotCarry(l, s, t, most);
    FetchKeepsPage(l, s.pool);
    assert !InSection(s.pcs[t]);
  }

  lemma StoreKeepsCount(l: Layout, s: State, t: nat)
    requires Inv(l, s) && CountFits(l, s) && Enabled(l, s, Store(t))
    ensures CountFits(l, Next(l, s, Store(t)))
  {
    var v := Next(l, s, Store(t));
    assert Unused(s, t) && InSection(s.pcs[t]);
    WordParts(l, s.pcs[t].page, 1);
    SumZeros(|s.pcs|);
    SomeSlots(l);
    assert Ending(v);
    forall u | 0 <= u < |v.pcs| ensures OverFits(v, u) {
      assert v.past.over[u] == 0;
    }
  }

  lemma FlagStepKeepsCount(l: Layout, s: State, a: Step)
    requires Inv(l, s) && CountFits(l, s) && Enabled(l, s, a) && !a.FetchAdd? && !a.Store?
    ensures CountFits(l, Next(l, s, a))
  {
    var v := Next(l, s, a);
    forall u | 0 <= u < |v.pcs| ensures OverFits(v, u) {
      assert OverFits(s, u);
      assert InSection(s.pcs[u]) <==> s.lock && u == s.past.owner;
      assert InSection(s.pcs[a.t]) <==> s.lock && a.t == s.past.owner;
    }
  }

  lemma {:induction false} RunKeepsCount(l: Layout, s: State, steps: seq<Step>, most: nat)
    requires Inv(l, s) && CountFits(l, s) && Runs(l, s, steps) && s.past.fails + Failures(steps) <= most
    requires l.PerPage() + (2 + most) * |s.pcs| <= l.pageSize
    ensures NeverCarries(l, s, steps)
    ensures CountFits(l, End(l, s, steps)) && |End(l, s, steps).pcs| == |s.pcs|
    ensures End(l, s, steps).past.fails <= most
    decreases |steps|
  {
    if steps != [] {
      if steps[0].FetchAdd? {
        FetchKeepsCount(l, s, steps[0].t, most);
      } else if steps[0].Store? {
        StoreKeepsCount(l, s, steps[0].t);
      } else {
        FlagStepKeepsCount(l, s, steps[0]);
      }
      StepKeepsInv(l, s, steps[0]);
      RunKeepsCount(l, Next(l, s, steps[0]), steps[1..], most);
    }
  }

  /**
    * With T threads, N slots a page, at most F failed mappings and N + (2 + F)T at most the page size,
    * no interleaving carries the counter into the page address: it stays below N + (2 + F)T. Without
    * failures that is N + 2T.
    */
  lemma CounterNeverCarries(l: Layout, threads: nat, steps: seq<Step>, most: nat)
    requires l.Valid() && Runs(l, Initial(threads), steps) && Failures(steps) <= most
    requires 0 < threads && l.PerPage() + (2 + most) * threads <= l.pageSize
    ensures NeverCarries(l, Initial(threads), steps)
    ensures
      var s := End(l, Initial(threads), steps);
      l.Count(s.pool) < l.PerPage() + (2 + most) * threads && l.Page(s.pool) == s.past.page
  {
    InitialInv(l, threads);
    SumZeros(threads);
    RunKeepsCount(l, Initial(threads), steps, most);
    RunKeepsInv(l, Initial(threads), steps);
    CountBelow(l, End(l, Initial(threads), steps), most);
  }

  // ----- the bound is exact

  ghost predicate Carries(l: Layout, s: State, steps: seq<Step>, most: nat)
    requires l.Valid()
  {
    Runs(l, s, steps) && Failures(steps) <= most && !NeverCarries(l, s, steps)
  }

  /** Some run with at most so many failed mappings carries the counter into the page address. */
  ghost predicate CanCarry(l: Layout, s: State, most: nat)
    requires l.Valid()
  {
    exists steps :: Carries(l, s, steps, most)
  }

  lemma StepThenCarry(l: Layout, s: State, a: Step, most: nat)
    requires l.Valid() && Enabled(l, s, a) && (a.MapFails? ==> most > 0)
    requires CanCarry(l, Next(l, s, a), if a.MapFails? then most - 1 else most)
    ensures CanCarry(l, s, most)
  {
    var rest :| Carries(l, Next(l, s, a), rest, if a.MapFails? then most - 1 else most);
    assert ([a] + rest)[1..] == rest;
    assert Carries(l, s, [a] + rest, most);
  }

  lemma LastClaimCarries(l: Layout, s: State, t: nat, most: nat)
    requires l.Valid() && Enabled(l, s, FetchAdd(t)) && l.Count(s.pool) + 1 == l.pageSize
    ensures CanCarry(l, s, most)
  {
    var steps := [FetchAdd(t)];
    assert steps[1..] == [];
    assert Runs(l, Next(l, s, FetchAdd(t)), []);
    assert steps[0].FetchAdd? && !(l.Count(s.pool) + 1 < l.pageSize) && !NeverCarries(l, s, steps);
    assert Carries(l, s, steps, most);
  }

  /** A claim: it carries, or the word names the same page afterwards and the counter is one higher. */
  lemma ClaimThenCarry(l: Layout, s: State, t: nat, most: nat)
    requires l.Valid() && Enabled(l, s, FetchAdd(t))
    requires l.Count(s.pool) + 1 < l.pageSize ==> CanCarry(l, Fetched(l, s, t), most)
    ensures CanCarry(l, s, most)
  {
    if l.Count(s.pool) + 1 < l.pageSize {
      StepThenCarry(l, s, FetchAdd(t), most);
    } else {
      LastClaimCarries(l, s, t, most);
    }
  }

  ghost predicate FullPage(l: Layout, s: State) {
    l.Valid() && Shaped(s) && |s.pcs| > 0 && l.Page(s.pool) != 0 && l.PerPage() <= l.Count(s.pool)
  }

  /** The threads from the k-th on wake and claim past the end, and thread 0 does. When that is not enough,
      a mapping fails and they do it again. */
  lemma {:induction false} WakeAll(l: Layout, s: State, k: nat, most: nat)
    requires FullPage(l, s) && !s.lock && 1 <= k <= |s.pcs| && s.pcs[0].Idle?
    requires forall i | 1 <= i < |s.pcs| :: if i < k then s.pcs[i].Full? else s.pcs[i].Waiting?
    requires l.Count(s.pool) + (|s.pcs| - k) + 1 + most * |s.pcs| >= l.pageSize
    ensures CanCarry(l, s, most)
    decreases most, 2, |s.pcs| - k
  {
    FetchKeepsPage(l, s.pool);
    if k < |s.pcs| {
      var s1 := Next(l, s, Wake(k));
      if l.Count(s.pool) + 1 < l.pageSize {
        WakeAll(l, Fetched(l, s1, k), k + 1, most);
      }
      ClaimThenCarry(l, s1, k, most);
      StepThenCarry(l, s, Wake(k), most);
    } else {
      var s1 := Next(l, s, Call(0));
      if l.Count(s.pool) + 1 < l.pageSize {
        assert most > 0;
        var s2 := Fetched(l, s1, 0);
        QueueAll(l, Next(l, s2, TestAndSet(0)), 1, most);
        StepThenCarry(l, s2, TestAndSet(0), most);
      }
      ClaimThenCarry(l, s1, 0, most);
      StepThenCarry(l, s, Call(0), most);
    }
  }

  /** The threads from the k-th on lose the flag to thread 0, whose mapping then fails. */
  lemma {:induction false} QueueAll(l: Layout, s: State, k: nat, most: nat)
    requires FullPage(l, s) && s.lock && 1 <= k <= |s.pcs| && s.pcs[0].Holding? && most > 0
    requires forall i | 1 <= i < |s.pcs| :: if i < k then s.pcs[i].Waiting? else s.pcs[i].Full?
    requires l.Count(s.pool) + most * |s.pcs| >= l.pageSize
    ensures CanCarry(l, s, most)
    decreases most, 1, |s.pcs| - k
  {
    if k < |s.pcs| {
      QueueAll(l, Next(l, s, TestAndSet(k)), k + 1, most);
      StepThenCarry(l, s, TestAndSet(k), most);
    } else {
      var s1 := Next(l, s, MapFails(0));
      assert most * |s.pcs| == (most - 1) * |s.pcs| + |s.pcs|;
      WakeAll(l, Next(l, s1, Clear(0)), 1, most - 1);
      StepThenCarry(l, s1, Clear(0), most - 1);
      StepThenCarry(l, s, MapFails(0), most);
    }
  }

  /** While thread 0 publishes a page that is full already, the threads from the k-th on claim past its end
      and wait. */
  lemma {:induction false} GatherAll(l: Layout, s: State, k: nat, most: nat)
    requires FullPage(l, s) && s.lock && 1 <= k <= |s.pcs| && s.pcs[0].Stored?
    requires forall i | 1 <= i < |s.pcs| :: if i < k then s.pcs[i].Waiting? else s.pcs[i].Idle?
    requires l.Count(s.pool) + (|s.pcs| - k) + |s.pcs| + most * |s.pcs| >= l.pageSize
    ensures CanCarry(l, s, most)
    decreases |s.pcs| - k
  {
    if k < |s.pcs| {
      FetchKeepsPage(l, s.pool);
      var s1 := Next(l, s, Call(k));
      if l.Count(s.pool) + 1 < l.pageSize {
        var s2 := Fetched(l, s1, k);
        GatherAll(l, Next(l, s2, TestAndSet(k)), k + 1, most);
        StepThenCarry(l, s2, TestAndSet(k), most);
      }
      ClaimThenCarry(l, s1, k, most);
      StepThenCarry(l, s, Call(k), most);
    } else {
      WakeAll(l, Next(l, s, Clear(0)), 1, most);
      StepThenCarry(l, s, Clear(0), most);
    }
  }

  /** A page was just stored by thread 0, which is still publishing it unless it is alone; thread `t` takes
      all slots left. */
  lemma {:induction false} TakeAll(l: Layout, s: State, t: nat, most: nat)
    requires l.Valid() && Shaped(s) && l.Page(s.pool) != 0 && l.Count(s.pool) <= l.PerPage()
    requires t < |s.pcs| && forall i | 1 <= i < |s.pcs| :: s.pcs[i].Idle?
    requires if |s.pcs| == 1 then !s.lock && s.pcs[0].Idle? else t == 1 && s.lock && s.pcs[0].Stored?
    requires l.PerPage() + (2 + most) * |s.pcs| > l.pageSize
    ensures CanCarry(l, s, most)
    decreases l.PerPage() - l.Count(s.pool)
  {
    if l.Count(s.pool) < l.PerPage() {
      FetchKeepsPage(l, s.pool);
      var s1 := Next(l, s, Call(t));
      if l.Count(s.pool) + 1 < l.pageSize {
        TakeAll(l, Fetched(l, s1, t), t, most);
      }
      ClaimThenCarry(l, s1, t, most);
      StepThenCarry(l, s, Call(t), most);
    } else {
      assert (2 + most) * |s.pcs| == 2 * |s.pcs| + most * |s.pcs|;
      if |s.pcs| == 1 {
        WakeAll(l, s, 1, most);
      } else {
        GatherAll(l, s, 1, most);
      }
    }
  }

  lemma FirstPage(l: Layout, threads: nat, most: nat)
    requires l.Valid() && 0 < threads && l.PerPage() + (2 + most) * threads > l.pageSize
    ensures CanCarry(l, Initial(threads), most)
  {
    var s := Initial(threads);
    WordParts(l, 0, 0);
    WordParts(l, l.pageSize, 1);
    SomeSlots(l);
    var s1 := Next(l, s, Call(0));
    var s2 := Next(l, s1, FetchAdd(0));
    var s3 := Next(l, s2, TestAndSet(0));
    var s4 := Next(l, s3, Map(0, l.pageSize));
    var s5 := Next(l, s4, Store(0));
    if threads == 1 {
      TakeAll(l, Next(l, s5, Clear(0)), 0, most);
      StepThenCarry(l, s5, Clear(0), most);
    } else {
      TakeAll(l, s5, 1, most);
    }
    StepThenCarry(l, s4, Store(0), most);
    StepThenCarry(l, s3, Map(0, l.pageSize), most);
    StepThenCarry(l, s2, TestAndSet(0), most);
    StepThenCarry(l, s1, FetchAdd(0), most);
    StepThenCarry(l, s, Call(0), most);
  }

  /**
    * The bound is exact: T threads can carry the counter into the page address in a run with at most F
    * failed mappings if and only if N + (2 + F)T exceeds the page size.
    */
  lemma CarriesExactly(l: Layout, threads: nat, most: nat)
    requires l.Valid() && 0 < threads
    ensures CanCarry(l, Initial(threads), most) <==> l.PerPage() + (2 + most) * threads > l.pageSize
  {
    if l.PerPage() + (2 + most) * threads > l.pageSize {
      FirstPage(l, threads, most);
    } else {
      forall steps | Runs(l, Initial(threads), steps) && Failures(steps) <= most
        ensures NeverCarries(l, Initial(threads), steps)
      {
        CounterNeverCarries(l, threads, steps, most);
      }
    }
  }

  // ----- what repeated failures of mmap do

  // One call whose mmap fails, then the rest.
  function FailedCall(rest: seq<Step>): seq<Step> {
    [Call(0)] + ([FetchAdd(0)] + ([TestAndSet(0)] + ([MapFails(0)] + ([Clear(0)] + rest))))
  }

  // n such calls, and one more call that claims a slot.
  function FailedCalls(n: nat): seq<Step> {
    if n == 0 then [Call(0), FetchAdd(0)] else FailedCall(FailedCalls(n - 1))
  }

  // One thread after k calls that all failed to map a page.
  function Broken(k: nat): State {
    State(k, false, [Idle], {}, [], History(0, 0, 0, [k], k, []))
  }

  lemma RunsCons(l: Layout, s: State, a: Step, rest: seq<Step>)
    requires l.Valid() && Enabled(l, s, a) && Runs(l, Next(l, s, a), rest)
    ensures Runs(l, s, [a] + rest) && End(l, s, [a] + rest) == End(l, Next(l, s, a), rest)
  {
    assert ([a] + rest)[1..] == rest;
  }

  lemma FailedCallRuns(l: Layout, k: nat, rest: seq<Step>)
    requires l.Valid() && k < l.pageSize && Runs(l, Broken(k + 1), rest)
    ensures
      Runs(l, Broken(k), FailedCall(rest)) &&
      End(l, Broken(k), FailedCall(rest)) == End(l, Broken(k + 1), rest)
  {
    var s1 := Next(l, Broken(k), Call(0));
    var s2 := Next(l, s1, FetchAdd(0));
    WordParts(l, 0, k);
    assert s2.pcs == [Full];
    var s3 := Next(l, s2, TestAndSet(0));
    var s4 := Next(l, s3, MapFails(0));
    assert Next(l, s4, Clear(0)) == Broken(k + 1);
    RunsCons(l, s4, Clear(0), rest);
    RunsCons(l, s3, MapFails(0), [Clear(0)] + rest);
    RunsCons(l, s2, TestAndSet(0), [MapFails(0)] + ([Clear(0)] + rest));
    RunsCons(l, s1, FetchAdd(0), [TestAndSet(0)] + ([MapFails(0)] + ([Clear(0)] + rest)));
    RunsCons(l, Broken(k), Call(0),
             [FetchAdd(0)] + ([TestAndSet(0)] + ([MapFails(0)] + ([Clear(0)] + rest))));
  }

  lemma LastCallRuns(l: Layout, k: nat)
    requires l.Valid() && k <= l.pageSize
    ensures
      var steps := [Call(0), FetchAdd(0)];
      Runs(l, Broken(k), steps) &&
      (k == l.pageSize ==>
       End(l, Broken(k), steps).taken == [Slot(k, 0)] && End(l, Broken(k), steps).mapped == {})
  {
    var s1 := Next(l, Broken(k), Call(0));
    RunsCons(l, s1, FetchAdd(0), []);
    RunsCons(l, Broken(k), Call(0), [FetchAdd(0)] + []);
    assert [Call(0)] + ([FetchAdd(0)] + []) == [Call(0), FetchAdd(0)];
    SomeSlots(l);
  }

  lemma {:induction false} FailedCallsRun(l: Layout, k: nat, n: nat)
    requires l.Valid() && k + n == l.pageSize
    ensures
      var steps := FailedCalls(n);
      Runs(l, Broken(k), steps) &&
      End(l, Broken(k), steps).taken == [Slot(l.pageSize, 0)] && End(l, Broken(k), steps).mapped == {}
    decreases n
  {
    if n == 0 {
      LastCallRuns(l, k);
    } else {
      FailedCallsRun(l, k + 1, n - 1);
      FailedCallRuns(l, k, FailedCalls(n - 1));
    }
  }

  lemma InitialIsBroken()
    ensures Initial(1) == Broken(0)
  {
    assert Initial(1).pcs == [Idle];
    assert Zeros(1) == [0];
  }

  ghost predicate HandsOutUnmapped(l: Layout, s: State, steps: seq<Step>) {
    && l.Valid()
    && Runs(l, s, steps)
    && exists a :: a in End(l, s, steps).taken && a.page !in End(l, s, steps).mapped
  }

  /**
    * What a carry does: failed mappings advance the counter as well, and a single thread whose mappings
    * keep failing is handed a slot in a page that was never mapped.
    */
  lemma FailuresCarry(l: Layout)
    requires l.Valid()
    ensures exists steps :: HandsOutUnmapped(l, Initial(1), steps)
  {
    var n := l.pageSize;
    FailedCallsRun(l, 0, n);
    InitialIsBroken();
    var steps := FailedCalls(n);
    assert Slot(n, 0) in End(l, Broken(0), steps).taken;
    assert HandsOutUnmapped(l, Broken(0), steps);
  }
}
