/** LSPlant's tables together with the method records they speak about, as one value, and the effect on
    it of every operation of LSPlant and of every change that ART makes through an intercepted call. */
module HookWorld {
  import opened Wrappers
  import opened ArtMethods

  datatype HookRecord = HookRecord(hook: Method, backup: Method)

  // The entry points saved for one class when it becomes initialized.
  type Saved = map<Method, Address>

  /** `bridge` is the interpreter bridge, 0 when it was not found. `past` is what no table holds but the
      properties speak about. */
  datatype World = World(
    sdk: nat,
    bridge: Address,
    mem: map<Method, Record>,
    hooked: map<Method, HookRecord>,
    backups: map<Method, Method>,
    hookedClasses: map<ClassDef, set<Method>>,
    deopted: map<Method, Address>,
    deoptClasses: map<ClassDef, set<Method>>,
    proxies: set<Method>,
    pending: map<Thread, map<ClassDef, Saved>>,
    past: Past)

  /** generated: the methods LSPlant made; hookerClasses: the classes of those methods;
      trampolines: the trampoline of each hooked method; issued: all trampolines handed out so far;
      window: the classes between becoming initialized and their fixup, with the thread at work on them;
      tainted: the methods a caller deoptimized, directly or through their backup;
      sunk: the methods deoptimized while they were not a live backup. */
  datatype Past = Past(
    generated: set<Method>,
    hookerClasses: set<ClassDef>,
    trampolines: map<Method, Address>,
    issued: set<Address>,
    window: map<ClassDef, Thread>,
    tainted: set<Method>,
    sunk: set<Method>)

  // What is remembered of a method; it has a backup when it is hooked.
  datatype Remembered = Remembered(backup: Option<Method>, data: Address, entryPoint: Address)

  // What ART makes of a method.
  datatype Mapped = Mapped(data: Address, entryPoint: Address)

  datatype Event =
    | Hook(target: Method, hook: Method, backup: Method, hookRecord: Record,
           trampoline: Address, isProxy: bool)
    | UnHook(m: Method)
    | Deoptimize(m: Method)
    | UpdateCode(m: Method, code: Address)
    | UpdateToInterpreter(m: Method, entry: Address)
    | InitializeCode(m: Method, code: Address, entry: Address)
    | SetNative(m: Method, fn: Address)
    | SetInitialized(c: ClassDef, self: Thread)
    | Fixup(c: ClassDef, self: Thread, writes: map<Method, Address>, order: seq<Method>)
    | MapMethods(art: map<Method, Mapped>, order: seq<Method>)

  // ----- lookups and small updates

  function Lookup<K, V>(m: map<K, set<V>>, k: K): set<V> {
    if k in m then m[k] else {}
  }

  function GroupAdd<K, V>(m: map<K, set<V>>, k: K, v: V): map<K, set<V>> {
    m[k := Lookup(m, k) + {v}]
  }

  // Removes a member, and the group when nothing is left in it.
  function GroupRemove<K, V>(m: map<K, set<V>>, k: K, v: V): map<K, set<V>> {
    if k !in m then m
    else if m[k] - {v} == {} then m - {k}
    else m[k := m[k] - {v}]
  }

  function SetEntry(mem: map<Method, Record>, m: Method, entry: Address): map<Method, Record>
    requires m in mem
  {
    mem[m := mem[m].(entryPoint := entry)]
  }

  // Where a change to the native code or the entry point of `m` has to go.
  function Holder(w: World, m: Method): Method {
    if m in w.hooked then w.hooked[m].backup else m
  }

  /** The record that decides how the original code of `m` runs. */
  function Effective(w: World, m: Method): Record
    requires Holder(w, m) in w.mem
  {
    w.mem[Holder(w, m)]
  }

  // ----- LSPlant's own operations

  predicate CanHook(w: World, target: Method, trampoline: Address)
    requires target in w.mem
  {
    !w.mem[target].IsAbstract() && target !in w.hooked && target !in w.backups && trampoline != 0
  }

  function ApplyHook(w: World, e: Event): World
    requires e.Hook? && e.target in w.mem
  {
    if !CanHook(w, e.target, e.trampoline) then w
    else
      var original := w.mem[e.target];
      var backup := BackupRecord(original, w.sdk);
      w.(mem := w.mem[e.hook := e.hookRecord][e.backup := backup]
                     [e.target := HookedRecord(original, w.sdk, e.trampoline)],
      hooked := w.hooked[e.target := HookRecord(e.hook, e.backup)],
      backups := w.backups[e.backup := e.target],
      hookedClasses := GroupAdd(w.hookedClasses, original.declaringClass, e.target),
      deopted := if e.backup in w.deopted then w.deopted else w.deopted[e.backup := backup.entryPoint],
      deoptClasses := GroupAdd(w.deoptClasses, e.hookRecord.declaringClass, e.backup),
      proxies := if e.isProxy then w.proxies + {e.backup} else w.proxies,
      past := w.past.(generated := w.past.generated + {e.hook, e.backup},
                      hookerClasses := w.past.hookerClasses + {e.hookRecord.declaringClass},
                      trampolines := w.past.trampolines[e.target := e.trampoline],
                      issued := w.past.issued + {e.trampoline}))
  }

  function ApplyUnHook(w: World, target: Method): World
    requires target in w.mem && Holder(w, target) in w.mem
  {
    if target !in w.hooked then w
    else
      var backup := w.hooked[target].backup;
      w.(mem := w.mem[target := w.mem[backup].(accessFlags := w.mem[target].accessFlags)],
      hooked := w.hooked - {target},
      backups := w.backups - {backup},
      hookedClasses := GroupRemove(w.hookedClasses, w.mem[target].declaringClass, target),
      proxies := w.proxies - {backup},
      past := w.past.(trampolines := w.past.trampolines - {target}))
  }

  function ApplyDeoptimize(w: World, m: Method): World
    requires m in w.mem && Holder(w, m) in w.mem
  {
    if w.bridge == 0 || w.mem[m].IsNative() then w
    else
      w.(mem := SetEntry(w.mem, Holder(w, m), w.bridge),
      deopted := if m in w.deopted then w.deopted else w.deopted[m := w.mem[m].entryPoint],
      deoptClasses := GroupAdd(w.deoptClasses, w.mem[m].declaringClass, m),
      past := w.past.(tainted := w.past.tainted + {m} + (if m in w.backups then {w.backups[m]} else {}),
                      sunk := if m in w.backups then w.past.sunk else w.past.sunk + {m}))
  }

  // ----- intercepted changes of ART

  // ART writes `code` into `m`; what the interceptor leaves behind.
  function ApplyUpdateCode(w: World, m: Method, code: Address): World
    requires m in w.mem && Holder(w, m) in w.mem
  {
    if w.mem[m].entryPoint == code then w
    else if m in w.hooked && m !in w.deopted then w.(mem := SetEntry(w.mem, w.hooked[m].backup, code))
    else if m in w.hooked || m in w.deopted then w
    else w.(mem := SetEntry(w.mem, m, code))
  }

  // The method that receives the entry point ART chooses, when it announces the code `quick`.
  function MaybeUseBackup(w: World, m: Method, quick: Address): Method
    requires m in w.mem
  {
    if m in w.hooked && w.mem[m].entryPoint != quick then w.hooked[m].backup else m
  }

  function ApplyInitialize(w: World, m: Method, quick: Address, entry: Address): World
    requires m in w.mem && Holder(w, m) in w.mem
  {
    if m in w.deopted then w else w.(mem := SetEntry(w.mem, MaybeUseBackup(w, m, quick), entry))
  }

  function ApplySetNative(w: World, m: Method, fn: Address): World
    requires Holder(w, m) in w.mem
  {
    w.(mem := w.mem[Holder(w, m) := Effective(w, m).(data := fn)])
  }

  // ----- class initialization

  function ToSave(w: World, c: ClassDef): Saved
  {
    map m | m in Lookup(w.hookedClasses, c) + Lookup(w.deoptClasses, c) && m in w.mem && w.mem[m].IsStatic()
      :: w.mem[m].entryPoint
  }

  function AddPending(pending: map<Thread, map<ClassDef, Saved>>, self: Thread, c: ClassDef, saved: Saved)
    : map<Thread, map<ClassDef, Saved>>
  {
    if saved == map[] then pending
    else
      var ofSelf: map<ClassDef, Saved> := if self in pending then pending[self] else map[];
      if c in ofSelf then pending else
        var updated: map<ClassDef, Saved> := ofSelf[c := saved];
        pending[self := updated]
  }

  function ApplySetInitialized(w: World, c: ClassDef, self: Thread): World {
    if c == 0 then w
    else w.(pending := AddPending(w.pending, self, c, ToSave(w, c)),
         past := w.past.(window := w.past.window[c := self]))
  }

  // The classes whose window a fixup of class `c` by thread `self` closes.
  ghost function Closed(w: World, c: ClassDef, self: Thread): set<ClassDef> {
    if c != 0 then {c} * w.past.window.Keys
    else if self != 0 then set d | d in w.past.window && w.past.window[d] == self
    else {}
  }

  // The entry points that a fixup of class `c` by thread `self` takes out of the pending ones.
  ghost function Popped(w: World, c: ClassDef, self: Thread): Saved {
    map m | m in w.mem && Savedly(w, m) && w.mem[m].declaringClass in Closed(w, c, self)
      :: SavedEntry(w, m)
  }

  // A method has its entry point saved under its own class, by the thread that initializes the class.
  ghost predicate Savedly(w: World, m: Method)
    requires m in w.mem
  {
    var c := w.mem[m].declaringClass;
    c in w.past.window && w.past.window[c] in w.pending && c in w.pending[w.past.window[c]]
    && m in w.pending[w.past.window[c]][c]
  }

  ghost function SavedEntry(w: World, m: Method): Address
    requires m in w.mem && Savedly(w, m)
  {
    var c := w.mem[m].declaringClass;
    w.pending[w.past.window[c]][c][m]
  }

  function PopClass(pending: map<Thread, map<ClassDef, Saved>>, c: ClassDef): map<Thread, map<ClassDef, Saved>> {
    map t | t in pending && pending[t] - {c} != map[] :: pending[t] - {c}
  }

  function PendingAfter(pending: map<Thread, map<ClassDef, Saved>>, c: ClassDef, self: Thread)
    : map<Thread, map<ClassDef, Saved>>
  {
    if c != 0 then PopClass(pending, c) else if self != 0 then pending - {self} else pending
  }

  ghost function WindowAfter(w: World, c: ClassDef, self: Thread): map<ClassDef, Thread> {
    w.past.window - Closed(w, c, self)
  }

  function Written(mem: map<Method, Record>, writes: map<Method, Address>): (r: map<Method, Record>)
    ensures r.Keys == mem.Keys
  {
    map m | m in mem :: if m in writes then mem[m].(entryPoint := writes[m]) else mem[m]
  }

  // The restoration of one method whose saved entry point is `saved`.
  function RestoreOne(w: World, m: Method, saved: Address): (r: World)
    requires m in w.mem && Holder(w, m) in w.mem
    ensures r == w.(mem := r.mem) && r.mem.Keys == w.mem.Keys
  {
    var now := w.mem[m].entryPoint;
    var restored := SetEntry(w.mem, m, saved);
    if m in w.hooked then
      if m !in w.deopted && now != saved then w.(mem := SetEntry(restored, w.hooked[m].backup, now))
      else w.(mem := restored)
    else if m in w.deopted && now != w.bridge && w.bridge != 0 && !w.mem[m].IsNative() then
      w.(mem := SetEntry(restored, m, w.bridge))
    else w.(mem := restored)
  }

  ghost predicate Restorable(w: World, popped: Saved) {
    forall m | m in popped :: m in w.mem && Holder(w, m) in w.mem
  }

  // Restores the methods of `order` one after the other.
  ghost function RestoreAll(w: World, popped: Saved, order: seq<Method>): (r: World)
    requires Restorable(w, popped)
    requires forall m | m in order :: m in popped
    ensures r == w.(mem := r.mem) && r.mem.Keys == w.mem.Keys
    decreases |order|
  {
    if order == [] then w
    else
      var last := order[|order| - 1];
      assert last in order;
      assert forall m | m in order[..|order| - 1] :: m in order;
      RestoreOne(RestoreAll(w, popped, order[..|order| - 1]), last, popped[last])
  }

  // ART's fixup of static methods, followed by the interceptor's restoration in some order.
  ghost function BeforeRestore(w: World, e: Event): World
    requires e.Fixup?
  {
    w.(mem := Written(w.mem, e.writes),
    pending := PendingAfter(w.pending, e.c, e.self),
    past := w.past.(window := WindowAfter(w, e.c, e.self)))
  }

  ghost predicate Enumerates(order: seq<Method>, s: set<Method>) {
    && (forall i, j | 0 <= i < j < |order| :: order[i] != order[j])
    && (forall m | m in order :: m in s)
    && (forall m | m in s :: m in order)
  }

  // ----- the boot image: LSPlant shows ART the original entry points and puts its own back afterwards

  function Undeoptimized(w: World): map<Method, Record> {
    map m | m in w.mem :: if m in w.deopted then w.mem[m].(entryPoint := w.deopted[m]) else w.mem[m]
  }

  function Unhooked(mem: map<Method, Record>, hooked: map<Method, HookRecord>): map<Method, Record>
    requires forall m | m in hooked :: hooked[m].backup in mem
  {
    map m | m in mem :: if m in hooked
                        then mem[m].(data := mem[hooked[m].backup].data, entryPoint := mem[hooked[m].backup].entryPoint)
                        else mem[m]
  }

  function RememberedMethods(w: World): map<Method, Remembered>
    requires HoldersExist(w) && w.deopted.Keys <= w.mem.Keys
  {
    map m | m in w.hooked.Keys + w.deopted.Keys ::
      if m in w.hooked
      then Remembered(Some(w.hooked[m].backup), w.mem[m].data, Undeoptimized(w)[m].entryPoint)
      else Remembered(None, w.mem[m].data, w.mem[m].entryPoint)
  }

  // What ART leaves behind.
  function MappedBy(mem: map<Method, Record>, art: map<Method, Mapped>): map<Method, Record> {
    map m | m in mem :: if m in art then mem[m].(data := art[m].data, entryPoint := art[m].entryPoint) else mem[m]
  }

  function BeforeFinish(w: World, art: map<Method, Mapped>): World
    requires HoldersExist(w)
  {
    w.(mem := MappedBy(Unhooked(Undeoptimized(w), w.hooked), art))
  }

  ghost predicate Finishable(w: World, saved: map<Method, Remembered>) {
    forall m | m in saved :: m in w.mem && (saved[m].backup.Some? ==> saved[m].backup.value in w.mem)
  }

  // The records after the visit of `m`, of which `s` was remembered.
  function FinishRecords(mem: map<Method, Record>, m: Method, s: Remembered): (r: map<Method, Record>)
    requires m in mem && (s.backup.Some? ==> s.backup.value in mem)
    ensures r.Keys == mem.Keys
  {
    if s.backup.None? then
      SetEntry(mem, m, s.entryPoint)
    else
      var b := s.backup.value;
      if mem[m].data == mem[b].data && mem[m].entryPoint == mem[b].entryPoint then
        mem[m := mem[m].(data := s.data, entryPoint := s.entryPoint)]
      else
        SetEntry(mem[b := mem[b].(data := mem[m].data, entryPoint := mem[m].entryPoint)], m, s.entryPoint)
  }

  function FinishOne(w: World, saved: map<Method, Remembered>, m: Method): World
    requires m in saved && m in w.mem && (saved[m].backup.Some? ==> saved[m].backup.value in w.mem)
  {
    var moved := saved[m].backup.None? && w.mem[m].entryPoint != saved[m].entryPoint;
    w.(deopted := if moved then w.deopted[m := w.mem[m].entryPoint] else w.deopted,
    mem := FinishRecords(w.mem, m, saved[m]))
  }

  ghost function FinishAll(w: World, saved: map<Method, Remembered>, order: seq<Method>): (v: World)
    requires Finishable(w, saved) && forall m | m in order :: m in saved
    ensures v.mem.Keys == w.mem.Keys
    decreases |order|
  {
    if order == [] then w
    else
      var last := order[|order| - 1];
      assert last in order;
      assert forall m | m in order[..|order| - 1] :: m in order;
      FinishOne(FinishAll(w, saved, order[..|order| - 1]), saved, last)
  }

  /** The whole interception; `art` is what ART makes of the methods, `order` the order in which the
      remembered methods are visited. */
  ghost function ApplyMapBootImage(w: World, art: map<Method, Mapped>, order: seq<Method>): World
    requires HoldersExist(w) && w.deopted.Keys <= w.mem.Keys
    requires Enumerates(order, w.hooked.Keys + w.deopted.Keys)
  {
    FinishAll(BeforeFinish(w, art), RememberedMethods(w), order)
  }

  // `x` comes before the last `y`.
  ghost predicate Before(order: seq<Method>, x: Method, y: Method)
    decreases |order|
  {
    order != [] &&
    var front, last := order[..|order| - 1], order[|order| - 1];
    if last == y then x in front else Before(front, x, y)
  }

  // What a hooked method has while ART's mapping is not yet undone.
  function Given(w: World, art: map<Method, Mapped>, m: Method): Mapped
    requires m in w.hooked && w.hooked[m].backup in w.mem
  {
    var b := w.hooked[m].backup;
    if m in art then art[m] else Mapped(w.mem[b].data, if b in w.deopted then w.deopted[b] else w.mem[b].entryPoint)
  }

  // ----- the step

  /** What the event says about methods that exist, and about fresh ones. */
  ghost predicate Known(w: World, e: Event) {
    match e
    case Hook(target, hook, backup, _, _, _) =>
      target in w.mem && hook !in w.mem && backup !in w.mem && hook != backup
    case SetInitialized(_, _) => true
    case Fixup(c, t, writes, order) => Enumerates(order, Popped(w, c, t).Keys)
    case MapMethods(_, order) => w.deopted.Keys <= w.mem.Keys && Enumerates(order, w.hooked.Keys + w.deopted.Keys)
    case _ => e.m in w.mem
  }

  ghost predicate HoldersExist(w: World) {
    forall m | m in w.hooked :: m in w.mem && w.hooked[m].backup in w.mem
  }

  ghost function Apply(w: World, e: Event): World
    requires HoldersExist(w) && Known(w, e)
  {
    match e
    case Hook(_, _, _, _, _, _) => ApplyHook(w, e)
    case UnHook(target) => ApplyUnHook(w, target)
    case Deoptimize(m) => ApplyDeoptimize(w, m)
    case UpdateCode(m, code) => ApplyUpdateCode(w, m, code)
    case UpdateToInterpreter(m, entry) => ApplyInitialize(w, m, 0, entry)
    case InitializeCode(m, code, entry) => ApplyInitialize(w, m, code, entry)
    case SetNative(m, fn) => ApplySetNative(w, m, fn)
    case SetInitialized(c, self) => ApplySetInitialized(w, c, self)
    case Fixup(c, self, _, order) => RestoreAll(BeforeRestore(w, e), Popped(w, c, self), order)
    case MapMethods(art, order) => ApplyMapBootImage(w, art, order)
  }
}
