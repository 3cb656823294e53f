# LSPlant, modelled and proved

LSPlant hooks methods of the Android runtime (ART) by rewriting their records in place. This project models
the parts of it that keep mutable state consistent while others change it, and proves what they are for.

| file | what it is about |
|---|---|
| ArtMethod | the method record: entry point, data, access flags, declaring class, and the setters LSPlant uses |
| HookWorld | records, tables and the effect of every LSPlant operation and intercepted ART change on them, as one step function |
| HookInvariants | what every step keeps |
| Transparency | forward simulation against a runtime without LSPlant, and what follows for whole runs |
| MapBootImage | the save, undo and redo around ART mapping its boot image, and what it keeps |
| MappingRuns | short runs after which that mapping goes wrong |
| HookEffects | what each operation achieves and when it refuses, told without the step function |
| Lsplant | the same operations as methods on a mutable heap of records and tables, proved against HookWorld and MapBootImage |
| TrampolinePool | the lock-free pool of trampoline slots, any number of threads |
| TrampolineCode | the machine code in a slot and its rewriting |
| TrampolineSlots | slots of the pool hold that code |
| DebuggableGuard | the counter that makes the runtime debuggable while guards are held |
| StubMachine, HookStub, NativeHooker | dex registers, the code emitted for a hook, and the native entry that does the same job |
| ArenaAllocator | arenas, their pool, chains, blocks and bytes |
| SharedPool | any number of allocators on one pool |
| ObjectTable, ObjectList, ObjectMap | the list and the map of Java references |
| StackTrace | rewriting backtraces |
| Wrappers | a result that may be missing |

Concurrent code is modelled as steps, one per atomic access, in any order, under sequential consistency.
Code that works in place is a class or a method on an array, proved against functions whose properties are
the lemmas. `dafny verify dfyconfig.toml` checks everything.

## What the hook machine relies on

The predicate `HookInvariants.Allowed` collects what the code needs from its surroundings:

- nothing is hooked, unhooked or deoptimized in a class between its becoming initialized and its fixup;
- ART never installs a trampoline address as new code;
- classes generated for hooks are initialized before a hook is recorded, and a class is initialized once;
- a fixup rewrites static methods of its own class only;
- the hook and the backup of a new hook are fresh methods, and ART binds no native code to a live backup;
- when ART maps its boot image, no hooked method is deoptimized, or only ones the mapping does no harm to
  (`HookInvariants.MappingFits`, which `MappingKeepsExactly` proves to be exactly what is needed).

Transparency needs one thing more: a mapping of the boot image must be clean, that is, the order in which the
saved methods are visited must let every entry point ART wants reach its backup (`Transparency.OrdersFit`,
again exactly what is needed).

## What the proofs found

- MapBootImageMethods is not transparent for hooked methods in general. Every live backup is in the
  deoptimization table, so the first loop resets its entry point before the hooked method borrows it, and the
  result depends on the iteration order. `MappingTransparentExactly` says when it comes out right,
  `TransparentInEveryOrder` when it does whatever the order, and `UpdateIsLost` is a run after which it does not.
- It also loses a hook whose target was deoptimized before it was hooked (`HookSurvivesMapping`, `HookIsLost`),
  and can take a method deoptimized while hooked out of the interpreter (`BridgeSurvivesMapping`,
  `DeoptimizationIsLost`).
- A failed mmap still advances the claim counter of the trampoline pool: each one costs a claim for every
  thread (`CarriesExactly`). Enough of them in a row lead to a slot in a page nobody mapped (`FailuresCarry`).
- Removing an empty slot of the object list makes a later add run off its search: `RemovedTwice`.
- A backtrace with a null frame object loses its alignment: `AlignedExactly`.
- The native entry passes one null too many to a static method with a packing callback, and gives zero
  where the generated stub throws: `NativeEntryRefinesStub`.
- Hooking a fast native method that returns char aborts: `AbortsExactlyForChar`.
- A 16-byte aligned request for zero bytes can take a new arena and leave the pointer at its very start
  (`Arenas.ArenaAllocator.AllocAlign16` says exactly when). A block that ends there, in an adjacent arena, is
  then extended across the boundary by Realloc (`ZeroRequestStrays`, `SomeBlockStrays`).
- Unhooking leaves the former backup in both deoptimization tables: `UnHookUndoesHook`.

## Model

| member | source | states |
|---|---|---|
| Transparency.HooksAreTransparent | lsplant/src/main/jni/lsplant.cc:857-886 | After every run of hooks, unhooks, deoptimizations, code updates, native registrations, class initializations and clean mappings of the boot image, the effective data of every original method, and the effective entry point of each that nobody deoptimized, are what ART's changes alone would have made them |
| Transparency.RunTransparent | lsplant/src/main/jni/art/runtime/instrumentation.cxx:64-114 | The simulation over a run from any state in order, not only the first |
| Transparency.StepTransparent | lsplant/src/main/jni/art/runtime/instrumentation.cxx:64-114 | One step, LSPlant's own or an intercepted one, keeps the memory with hooks and the memory of a runtime without LSPlant in agreement |
| Transparency.TablesStayConsistent | lsplant/src/main/jni/common.cxx:136-179 | After every run the tables of hooked methods and of backups are inverse with disjoint domains, hooked methods are exactly grouped by class with no empty group, proxy backups are backups, each hooked method enters through its own trampoline, and no two share one |
| Transparency.DeoptimizationIsPermanent | lsplant/src/main/jni/lsplant.cc:1261-1282 | Whatever allowed steps follow a successful deoptimization of a method that is not a live backup, mappings of the boot image included, its original code still enters the interpreter bridge |
| HookEffects.HookTakes | lsplant/src/main/jni/lsplant.cc:953-1093 | A hook takes effect if and only if the target is not abstract, not hooked, no backup, and a trampoline could be made: then target, backup and tables are as stated field by field, otherwise nothing has changed |
| HookEffects.NoAbstractIsHooked | lsplant/src/main/jni/lsplant.cc:956-959 | After every run, no hooked method is abstract |
| HookEffects.UnHookTakes | lsplant/src/main/jni/lsplant.cc:1218-1248 | Unhooking takes effect exactly on hooked methods, and what it then changes |
| HookEffects.DeoptimizeTakes | lsplant/src/main/jni/lsplant.cc:1266-1281 | Deoptimizing takes effect if and only if there is a bridge and the method is not native; it changes one entry point and keeps the one first recorded |
| HookEffects.EntryChangesTake | lsplant/src/main/jni/art/runtime/instrumentation.cxx:15-114 | Code updates and chosen entry points reach the record that counts of every method not in the deoptimization table, and nothing else |
| HookEffects.NativeTakes | lsplant/src/main/jni/art/runtime/class_linker.cxx:120-179 | Native code reaches the record that counts, deoptimized or not |
| HookEffects.SavesExactly | lsplant/src/main/jni/art/mirror/class.cxx:39-62 | Of the original methods of a class that becomes initialized, exactly the static ones that are hooked or deoptimized are saved, with the entry point they have |
| HookEffects.FixupRestores | lsplant/src/main/jni/art/runtime/class_linker.cxx:195-262 | A fixup takes out everything saved for its class, or for its thread when it names none, and where each of those methods enters afterwards |
| HookEffects.FixupKeepsOthers | lsplant/src/main/jni/art/mirror/class.cxx:199-228 | What was saved for other classes and threads stays |
| HookEffects.FixupLinks | lsplant/src/main/jni/art/runtime/class_linker.cxx:218-262 | A method neither hooked nor deoptimized enters after a fixup where ART wants it |
| HookEffects.RestoredExactly | lsplant/src/main/jni/art/runtime/class_linker.cxx:195-216 | What the restoration leaves in a method that is neither hooked nor a live backup, in any order |
| Transparency.UnHookUndoesHook | lsplant/src/main/jni/lsplant.cc:888-903 | Unhooking after hooking restores every record of a method there was, except the access flags of the target, and every table but the two of deoptimizations, which keep exactly the former backup more |
| Transparency.HookTransparent | lsplant/src/main/jni/lsplant.cc:857-886 | Hooking leaves every effective record as it was |
| Transparency.UnHookTransparent | lsplant/src/main/jni/lsplant.cc:888-903 | Unhooking leaves every effective record as it was |
| Transparency.DeoptimizeTransparent | lsplant/src/main/jni/lsplant.cc:1261-1282 | Deoptimizing changes the effective record of the one method it is called for and of no other |
| Transparency.UpdateCodeTransparent | lsplant/src/main/jni/art/runtime/instrumentation.cxx:64-114 | A code update by ART changes exactly the effective entry point it would have changed without hooks |
| Transparency.InitializeTransparent | lsplant/src/main/jni/art/runtime/instrumentation.cxx:25-62 | The same for the entry points ART chooses itself, which the interceptor redirects to the backup |
| Transparency.SetNativeTransparent | lsplant/src/main/jni/art/runtime/class_linker.cxx:120-179 | Registering or unregistering native code reaches the record that counts |
| Transparency.RestoreAllTransparent | lsplant/src/main/jni/art/runtime/class_linker.cxx:195-216 | Restoring saved entry points, in any order, moves what ART wrote into hooked methods to their backups and loses none of it |
| Transparency.FixupTransparent | lsplant/src/main/jni/art/runtime/class_linker.cxx:195-262 | A whole class initialization, ART's fixup and the restoration after it, is transparent |
| Transparency.StepKeeps | lsplant/src/main/jni/common.cxx:119-179 | Every allowed step keeps all invariants: table consistency, trampolines in place, deoptimized methods in the interpreter, saved entry points that fit |
| HookInvariants.ReceiverOfEntry | lsplant/src/main/jni/art/runtime/instrumentation.cxx:15-23 | The entry point ART chooses goes to the record that counts if and only if ART did not announce the trampoline itself; so a hooked method never receives it |
| HookInvariants.HookKeeps | lsplant/src/main/jni/lsplant.cc:1074-1093 | Hooking keeps them |
| HookInvariants.UnHookKeeps | lsplant/src/main/jni/lsplant.cc:1209-1248 | Unhooking keeps them |
| HookInvariants.DeoptimizeKeeps | lsplant/src/main/jni/lsplant.cc:1261-1282 | Deoptimizing keeps them |
| HookInvariants.UpdateCodeKeeps | lsplant/src/main/jni/art/runtime/instrumentation.cxx:64-114 | Code updates keep them |
| HookInvariants.InitializeKeeps | lsplant/src/main/jni/art/runtime/instrumentation.cxx:15-62 | Entry points chosen by ART keep them |
| HookInvariants.SetNativeKeeps | lsplant/src/main/jni/art/runtime/class_linker.cxx:120-179 | Native registration keeps them |
| HookInvariants.SetInitializedKeeps | lsplant/src/main/jni/art/mirror/class.cxx:39-62 | Saving the entry points of an initialized class keeps them, and saves every static hooked or deoptimized method of the class |
| HookInvariants.RestoreAllKeeps | lsplant/src/main/jni/art/runtime/class_linker.cxx:195-216 | Restoring a set of saved entry points in any order puts every trampoline and every interpreter bridge back |
| HookInvariants.FixupKeeps | lsplant/src/main/jni/art/runtime/class_linker.cxx:195-262 | A fixup with its restoration keeps them |
| MapBootImage.HookSurvivesMapping | lsplant/src/main/jni/art/runtime/jit/jit.cxx:48-88 | After MapBootImageMethods a hooked method enters through its trampoline again if and only if the deoptimization table says nothing else about it, whatever ART rewrote and in whatever order the saved methods are visited |
| MapBootImage.BridgeSurvivesMapping | lsplant/src/main/jni/art/runtime/jit/jit.cxx:48-88 | A deoptimized method stays in the interpreter if and only if it is not hooked, is visited before its backup, or shows ART the bridge |
| MapBootImage.MappingKeepsExactly | lsplant/src/main/jni/art/runtime/jit/jit.cxx:48-88 | The mapping keeps all invariants if and only if every method both hooked and deoptimized was deoptimized while hooked and keeps its bridge |
| MapBootImage.MappingOfHooked | lsplant/src/main/jni/art/runtime/jit/jit.cxx:53-86 | What the mapping leaves in a hooked method and in its backup, depending on whether the backup is visited before the method |
| MapBootImage.MappingOfOther | lsplant/src/main/jni/art/runtime/jit/jit.cxx:53-86 | What it leaves in a method that is neither: what ART gave it, and the old entry point when it is deoptimized |
| MapBootImage.MappingRecords | lsplant/src/main/jni/art/runtime/jit/jit.cxx:53-79 | What the deoptimization table says of each of its methods afterwards: of a hooked one what it said, of any other the entry point ART left in it, or in the method a live backup stands for when that was visited first, unless that is the one it enters through |
| MapBootImage.NextMappingShows | lsplant/src/main/jni/art/runtime/jit/jit.cxx:53-79 | The next mapping shows ART, of a deoptimized method, the code that ART gave it in this one, or else what this one showed |
| MapBootImage.MappingTransparentExactly | lsplant/src/main/jni/art/runtime/jit/jit.cxx:53-86 | When the mapping is transparent for a hooked method, for a given visiting order: if and only if that order and the entry point the backup got when it was made happen to fit |
| MapBootImage.TransparentInEveryOrder | lsplant/src/main/jni/art/runtime/jit/jit.cxx:53-86 | It is so in every visiting order if and only if the entry point that the method shows ART, or ART gives it, is the one its backup has |
| MapBootImage.BridgeInEveryOrder | lsplant/src/main/jni/art/runtime/jit/jit.cxx:53-86 | A method hooked and deoptimized stays in the interpreter in every visiting order if and only if that entry point is the bridge |
| Transparency.MappingTransparent | lsplant/src/main/jni/art/runtime/jit/jit.cxx:48-88 | The mapping as one step of the simulation: transparent for all methods if and only if the order fits every hooked method nobody deoptimized |
| MappingRuns.HookIsLost | lsplant/src/main/jni/art/runtime/jit/jit.cxx:53-86 | From empty tables: deoptimize, hook, map, and the hook is gone in every visiting order |
| MappingRuns.UpdateIsLost | lsplant/src/main/jni/art/runtime/jit/jit.cxx:53-86 | From empty tables: hook, update the code, map with the backup visited first, and the update is gone |
| MappingRuns.DeoptimizationIsLost | lsplant/src/main/jni/art/runtime/jit/jit.cxx:53-86 | From empty tables: hook, deoptimize, map with the backup visited first, and the method has left the interpreter |
| Lsplant.Lsplant.HookMethod | lsplant/src/main/jni/lsplant.cc:953-1093 | The method that guards, builds and records a hook turns the memory and tables into exactly what the hook step of the model says, refusals included |
| Lsplant.Lsplant.DoHook | lsplant/src/main/jni/lsplant.cc:857-886 | Target and backup after the records are rewritten, in the order of the flag changes and copies; nothing without a trampoline |
| Lsplant.Lsplant.RecordHooked | lsplant/src/main/jni/common.cxx:159-173 | The three tables after a hook is recorded; an existing entry is not replaced |
| Lsplant.Lsplant.RecordDeoptimized | lsplant/src/main/jni/common.cxx:175-179 | The two deoptimization tables; the entry point first recorded is kept |
| Lsplant.Lsplant.UnHook | lsplant/src/main/jni/lsplant.cc:1209-1248 | The unhooking method against the unhook step |
| Lsplant.Lsplant.DoUnHook | lsplant/src/main/jni/lsplant.cc:888-903 | The target gets the record of the backup back, keeping its own flags |
| Lsplant.Lsplant.Deoptimize | lsplant/src/main/jni/lsplant.cc:1261-1282 | The deoptimizing method against its step, refusing without a bridge and for native methods |
| Lsplant.Lsplant.UpdateMethodsCode | lsplant/src/main/jni/art/runtime/instrumentation.cxx:80-114 | An intercepted update, ART's write followed by the handler, against the update step |
| Lsplant.Lsplant.HandleMethodCodeUpdated | lsplant/src/main/jni/art/runtime/instrumentation.cxx:64-78 | The handler alone: what a write by ART into a hooked or deoptimized method becomes |
| Lsplant.Lsplant.InitializeMethodsCode | lsplant/src/main/jni/art/runtime/instrumentation.cxx:38-62 | An intercepted initialization against its step |
| Lsplant.Lsplant.RegisterNative | lsplant/src/main/jni/art/runtime/class_linker.cxx:120-179 | Native registration against its step |
| Lsplant.Lsplant.BackupClassMethods | lsplant/src/main/jni/art/mirror/class.cxx:39-62 | Saving the static methods of an initialized class, in the nested table, against its step |
| Lsplant.Lsplant.PopBackup | lsplant/src/main/jni/art/mirror/class.cxx:199-228 | Taking saved entry points out again, by class or by thread, leaves exactly the others and no empty group |
| Lsplant.Lsplant.RestoreBackup | lsplant/src/main/jni/art/runtime/class_linker.cxx:195-216 | The restoration loop against the fold of the model |
| Lsplant.Lsplant.FixupStaticTrampolines | lsplant/src/main/jni/art/runtime/class_linker.cxx:195-262 | Fixup and restoration against the fixup step |
| Lsplant.Lsplant.MapBootImageMethods | lsplant/src/main/jni/art/runtime/jit/jit.cxx:48-88 | Three loops over the tables around ART's mapping, against the value the mapping lemmas speak about |
| ArtMethods.ArtMethod.BackupTo | lsplant/src/main/jni/art/runtime/art_method.cxx:265-276 | Copying a target into its backup and what happens to the flags of both |
| ArtMethods.FlagsAfterHook | lsplant/src/main/jni/lsplant.cc:870-878 | What the order of flag changes amounts to: the target loses its pre-compiled, intrinsic and fast interpreter flags, is not compiled, and keeps all others; the backup is not compiled, no constructor, and private unless static |
| ArtMethods.ArtMethod.CopyFrom | lsplant/src/main/jni/art/runtime/art_method.cxx:198-198 | The whole record is copied |
| TrampolinePool.CounterNeverCarries | lsplant/src/main/jni/lsplant.cc:787-836 | With T threads, N slots a page, at most F failed mappings and N + (2 + F)T within the counter width, no interleaving carries the claim counter into the page address; it stays below N + (2 + F)T, which is N + 2T without failures |
| TrampolinePool.CarriesExactly | lsplant/src/main/jni/lsplant.cc:787-836 | The bound is exact: some run of T threads with at most F failed mappings carries if and only if N + (2 + F)T exceeds the page size |
| TrampolinePool.SlotsAreDisjoint | lsplant/src/main/jni/lsplant.cc:782-855 | In every interleaving whose counter never carries, failed mappings included, any two slots handed out are disjoint |
| TrampolinePool.SlotsLieInMappedPages | lsplant/src/main/jni/lsplant.cc:782-842 | In the same runs every slot lies wholly in one mapped page, also when two threads replace the same full page in turn |
| TrampolinePool.SomeThreadCanStep | lsplant/src/main/jni/lsplant.cc:787-836 | No deadlock: while a call is under way some thread inside can step |
| TrampolinePool.EveryCallGetsASlot | lsplant/src/main/jni/lsplant.cc:782-855 | In every run, each slot has one thread, and each thread has obtained exactly as many as it has made calls, less its failed mappings and the call it is still waiting in |
| TrampolinePool.FailuresCarry | lsplant/src/main/jni/lsplant.cc:823-827 | What a carry does: a run of one thread whose mappings keep failing ends with a slot in a page nobody mapped |
| TrampolinePool.FetchKeepsPage | lsplant/src/main/jni/lsplant.cc:788-790 | A claim leaves the page address alone if and only if the counter is not at its last value |
| TrampolinePool.StepKeepsInv | lsplant/src/main/jni/lsplant.cc:787-836 | Every atomic access keeps mutual exclusion, the page in the word, and the places and distinctness of all slots |
| TrampolinePool.FetchCannotCarry | lsplant/src/main/jni/lsplant.cc:788-795 | Why: between two stores no thread claims past the end more than twice, once more for every failed mapping, and the storing thread once less |
| TrampolinePool.RunKeepsCount | lsplant/src/main/jni/lsplant.cc:787-836 | The bound on claims past the end holds through every run |
| TrampolineSlots.SlotsAreEven | lsplant/src/main/jni/lsplant.cc:742-842 | In every run whose counter never carries, each slot starts at an even address in a mapped page and has room for the whole code of the architecture |
| TrampolineSlots.SlotsKeepCode | lsplant/src/main/jni/lsplant.cc:742-855 | Code written into one slot runs, and leaves the code in every other slot as it is |
| DebuggableGuard.CounterTellsHolders | lsplant/src/main/jni/art/runtime/runtime.cxx:128-171 | For any number of guards, the counter is 1 exactly while one guard switches the runtime, otherwise 0 without holders or one more than their number; the runtime is debuggable while a guard is held and not at 0; the counter stays within the number of guards plus one |
| DebuggableGuard.CallsNeverOverlap | lsplant/src/main/jni/art/runtime/runtime.cxx:132-136 | Two SetJavaDebuggable calls never overlap |
| DebuggableGuard.DestructorNeverWaits | lsplant/src/main/jni/art/runtime/runtime.cxx:151-171 | A destructor never reads 0 or 1: it neither waits nor underflows |
| DebuggableGuard.PhasesInOrder | lsplant/src/main/jni/art/runtime/runtime.cxx:129-171 | A constructor ends only in holding the guard, with one more share in the counter, and a destructor only in giving one share up |
| DebuggableGuard.EveryGuardHeldOnce | lsplant/src/main/jni/art/runtime/runtime.cxx:129-171 | In every run a guard that is done was held once and released once, and one that is held has given up nothing |
| DebuggableGuard.NoDeadlock | lsplant/src/main/jni/art/runtime/runtime.cxx:129-171 | Some guard can always step until all are done, and then the counter is 0 and the runtime not debuggable |
| DebuggableGuard.MeasureFalls | lsplant/src/main/jni/art/runtime/runtime.cxx:129-171 | Every step, retries after a stale reading included, lowers a lexicographic measure |
| DebuggableGuard.EveryRunEnds | lsplant/src/main/jni/art/runtime/runtime.cxx:129-171 | Hence every run of n guards has at most 4n(5n + 1) + 5n steps |
| DebuggableGuard.StepKeepsCount | lsplant/src/main/jni/art/runtime/runtime.cxx:129-171 | Each access to the counter keeps its relation to the guards |
| HookStub.HookCallsBack | lsplant/src/main/jni/lsplant.cc:528-612 | For every shorty, static or not, packing or not, Java or native callback: the emitted code calls the callback exactly once with the receiver or null and all arguments boxed in order, and returns the unboxed result; null for a primitive throws, another class fails the cast; no register is read unset or written outside the frame |
| HookStub.HookCallInFull | lsplant/src/main/jni/lsplant.cc:528-612 | The same with the call told element by element and the result case by case |
| HookStub.BackupAnswersZero | lsplant/src/main/jni/lsplant.cc:616-643 | The backup fits its frame for every shorty and returns the zero of its type |
| HookStub.PackRuns | lsplant/src/main/jni/lsplant.cc:536-555 | Boxing in place and storing, with two indices and wide parameters taking two registers, clobbers no parameter still to be read |
| HookStub.CallRuns | lsplant/src/main/jni/lsplant.cc:568-598 | The call sequence of each variant, reusing the temporary and parameter 0, makes the owed call |
| HookStub.ReturnRuns | lsplant/src/main/jni/lsplant.cc:599-612 | Cast, unboxing over the temporary and its neighbour, and return |
| HookStub.MethodBuilder.BuildPacking | lsplant/src/main/jni/lsplant.cc:536-555 | The emitting loop yields the packing code |
| HookStub.MethodBuilder.BuildCall | lsplant/src/main/jni/lsplant.cc:565-598 | The emitting branches yield the call code |
| HookStub.MethodBuilder.BuildReturn | lsplant/src/main/jni/lsplant.cc:599-612 | And the returning code |
| HookStub.BuildHook | lsplant/src/main/jni/lsplant.cc:483-612 | The emitting method yields exactly the code the theorem is about, and nothing for an empty shorty |
| NativeHooker.NativeHookerEntry | lsplant/src/main/jni/lsplant.cc:300-444 | The native entry reads its arguments from the va_list, makes the stated call and gives the stated result |
| NativeHooker.NativeEntryRefinesStub | lsplant/src/main/jni/lsplant.cc:300-444 | It makes the calls of the generated stub if and only if the target is not both static and packing, or the hooker object is missing and neither calls; otherwise its array has one null more. It returns the same if and only if the hooker object is there and no primitive method answers null; otherwise the stub throws and the native entry answers as the backup stub would |
| NativeHooker.AbortsExactlyForChar | lsplant/src/main/jni/lsplant.cc:679-709 | Hooking a fast native method aborts if and only if the method returns char, which the emitted stub would have served; any other gets the entry of its own result type |
| NativeHooker.CharMethodAborts | lsplant/src/main/jni/lsplant.cc:679-709 | There is such a method |
| Arenas.MemMapArenaPool.AllocArena | lsplant/src/main/jni/art/base/arena_allocator.cxx:331-349 | The first free arena if it is large enough, and only then, else a freshly mapped one; all zero, and out of the free chain, although its next pointer may be stale |
| Arenas.MemMapArenaPool.FreeArenaChain | lsplant/src/main/jni/art/base/arena_allocator.cxx:351-372 | A whole chain comes in front of the free arenas; none is lost |
| Arenas.MemMapArenaPool.TrimMaps | lsplant/src/main/jni/art/base/arena_allocator.cxx:397-402 | Releasing pages clears every free arena and keeps the pool in order |
| Arenas.MemMapArenaPool.ReclaimMemory | lsplant/src/main/jni/art/base/arena_allocator.cxx:383-389 | Unmapping leaves exactly the arenas that are lent |
| Arenas.ChainFreed | lsplant/src/main/jni/art/base/arena_allocator.cxx:364-370 | Joining two chains keeps every arena in exactly one acyclic chain |
| Arenas.ArenaTaken | lsplant/src/main/jni/art/base/arena_allocator.cxx:335-347 | Taking the first free arena does too, and clearing its used part clears all of it |
| Arenas.ArenaAllocator.Alloc | lsplant/src/main/jni/art/base/arena_allocator.cxx:120-133 | A zeroed, 8-aligned block apart from every earlier one, at the pointer if it fits and in an arena that joins the chain if not; no other byte changes, the arenas of others are untouched, and the pool lends exactly the arenas that join |
| Arenas.ArenaAllocator.AllocAlign16 | lsplant/src/main/jni/art/base/arena_allocator.cxx:136-154 | The same at 16-byte alignment, with the padding accounted for; afterwards something of the current arena is in use if and only if the request was for some bytes or its padding fitted |
| Arenas.ArenaAllocator.AllocFromNewArena | lsplant/src/main/jni/art/base/arena_allocator.cxx:249-275 | The block from a new arena, of 64K or what the block needs, which joins the chain; the arena with more room is the current one afterwards |
| Arenas.ArenaAllocator.Realloc | lsplant/src/main/jni/art/base/arena_allocator.cxx:157-181 | Keeps the old bytes, zeroes the rest, changes no other block; in place if and only if the block ends at the pointer and the room suffices; everything stays in order if and only if it does not extend a block of another arena |
| Arenas.ArenaAllocator.BytesUsed | lsplant/src/main/jni/art/base/arena_allocator.cxx:195-204 | The sum over the chain is what was asked for, rounded and padded |
| Arenas.ArenaAllocator.Destroy | lsplant/src/main/jni/art/base/arena_allocator.cxx:113-117 | The destructor puts all arenas of the chain, with exact counts, in front of the free ones, and changes no other arena |
| Arenas.ArenaAllocator.Write | lsplant/src/main/jni/art/base/arena_allocator.cxx:120-133 | A caller writing inside its own block keeps allocator and pool in order |
| Arenas.EndsAtPtr | lsplant/src/main/jni/art/base/arena_allocator.cxx:161-164 | A block whose end is the current pointer lies in the current arena, never in an adjacent one, if and only if something of the current arena is in use |
| Arenas.ZeroRequestStrays | lsplant/src/main/jni/art/base/arena_allocator.cxx:136-148 | A request for no bytes that takes a new arena right behind a block leaves that block ending at the pointer, in another arena |
| Arenas.SomeBlockStrays | lsplant/src/main/jni/art/base/arena_allocator.cxx:136-164 | This happens: a request for no bytes in the state that two requests leave |
| Arenas.FilledByTwoRequests | lsplant/src/main/jni/art/base/arena_allocator.cxx:249-275 | That state is what taking two arenas, one block each, leaves |
| Arenas.ServedKeepsOthers | lsplant/src/main/jni/art/base/arena_allocator.cxx:120-154 | Handing out a block changes the content of no other |
| Arenas.ResizedKeepsOthers | lsplant/src/main/jni/art/base/arena_allocator.cxx:157-181 | Nor does resizing one |
| SharedPool.EveryArenaOnce | lsplant/src/main/jni/art/base/arena_allocator.cxx:331-372 | With any number of allocators on one pool, every arena is in exactly one chain, of the free arenas or of one allocator, and all chains are acyclic |
| SharedPool.BlocksNeverOverlap | lsplant/src/main/jni/art/base/arena_allocator.cxx:120-181 | Any two live blocks are disjoint, of one allocator or of two |
| SharedPool.UnusedIsZero | lsplant/src/main/jni/art/base/arena_allocator.cxx:59-65 | Everything past what is in use is zero, in lent and in free arenas |
| SharedPool.CallKeeps | lsplant/src/main/jni/art/base/arena_allocator.cxx:249-275 | A call that leaves other arenas alone and chains exactly what the pool lends keeps all this for the others |
| SharedPool.ReturnKeeps | lsplant/src/main/jni/art/base/arena_allocator.cxx:351-372 | So does giving a chain back |
| SharedPool.Open | lsplant/src/main/jni/art/base/arena_allocator.cxx:111-111 | A new allocator joins |
| SharedPool.Alloc | lsplant/src/main/jni/art/base/arena_allocator.cxx:120-133 | Allocating keeps all allocators in order |
| SharedPool.AllocAlign16 | lsplant/src/main/jni/art/base/arena_allocator.cxx:136-154 | So does allocating at 16-byte alignment, for no bytes too |
| SharedPool.Realloc | lsplant/src/main/jni/art/base/arena_allocator.cxx:157-181 | So does resizing, if and only if it does not extend a block of another arena |
| SharedPool.Write | lsplant/src/main/jni/art/base/arena_allocator.cxx:120-133 | So does writing inside a block |
| SharedPool.Destroy | lsplant/src/main/jni/art/base/arena_allocator.cxx:113-117 | So does destroying an allocator |
| SharedPool.TrimMaps | lsplant/src/main/jni/art/base/arena_allocator.cxx:397-402 | So does trimming, which clears every free arena |
| SharedPool.ReclaimMemory | lsplant/src/main/jni/art/base/arena_allocator.cxx:383-389 | So does reclaiming, after which only the arenas of allocators are left |
| ObjectTable.IndexIsStable | lsplant/src/main/jni/include/utils/jni_helper.hpp:1867-2072 | Through any run in which callers remove and fill only occupied slots, or slots the count does not know to be free, the count never exceeds the free slots and an object stays at its index until that slot is changed |
| ObjectTable.StepFits | lsplant/src/main/jni/include/utils/jni_helper.hpp:1867-2072 | An operation keeps the count within the free slots if and only if it is one of those |
| ObjectTable.UnreachableExactly | lsplant/src/main/jni/include/utils/jni_helper.hpp:1914-1937 | Adding runs off its search if and only if the count is not 0 and no slot is free |
| ObjectTable.AddFindsSlot | lsplant/src/main/jni/include/utils/jni_helper.hpp:1914-1937 | On a table in order, adding fills a free slot and changes no other, through growth and wrap-around |
| ObjectTable.AddTakesFirst | lsplant/src/main/jni/include/utils/jni_helper.hpp:1914-1937 | The slot filled is the first free one cyclically from the cursor, after growing by how much when no slot is believed free, and the cursor moves behind it |
| ObjectTable.RemovedIsReused | lsplant/src/main/jni/include/utils/jni_helper.hpp:1914-1954 | A slot just removed is the next one filled |
| ObjectTable.OperationsInFull | lsplant/src/main/jni/include/utils/jni_helper.hpp:1909-2004 | Update, remove, reserve, finalize and clear, slot by slot |
| ObjectTable.ScanFinds | lsplant/src/main/jni/include/utils/jni_helper.hpp:1922-1936 | The cyclic search finds a slot if and only if there is one |
| ObjectTable.RemovedTwice | lsplant/src/main/jni/include/utils/jni_helper.hpp:1949-1954 | Removing the same slot of a full table twice makes the second add after it run off its search |
| ObjectList.JBasicObjectList.Add | lsplant/src/main/jni/include/utils/jni_helper.hpp:1914-1937 | The list method against the table operation |
| ObjectList.JBasicObjectList.Remove | lsplant/src/main/jni/include/utils/jni_helper.hpp:1949-1954 | The same for removing |
| ObjectList.JBasicObjectList.Finalize | lsplant/src/main/jni/include/utils/jni_helper.hpp:1956-1994 | The same for compaction to the last object |
| ObjectList.JBasicObjectList.Get | lsplant/src/main/jni/include/utils/jni_helper.hpp:1939-1942 | Reading a slot, null outside |
| ObjectList.JBasicObjectList.Reserve | lsplant/src/main/jni/include/utils/jni_helper.hpp:1909-1912 | Growing to a capacity keeps every slot |
| ObjectList.JBasicObjectList.Update | lsplant/src/main/jni/include/utils/jni_helper.hpp:1944-1947 | Writing a slot, nothing outside |
| ObjectList.JBasicObjectList.Clear | lsplant/src/main/jni/include/utils/jni_helper.hpp:1996-2004 | All slots become free and the length stays |
| ObjectList.JBasicObjectList.Recycle | lsplant/src/main/jni/include/utils/jni_helper.hpp:2006-2016 | The list is empty and has no slots |
| ObjectList.JBasicObjectList.MoveFrom | lsplant/src/main/jni/include/utils/jni_helper.hpp:2019-2026 | Moving takes everything and leaves an empty list |
| ObjectMap.JBasicObjectMap.Add | lsplant/src/main/jni/include/utils/jni_helper.hpp:2100-2140 | Exactly the map update; refuses only null and never runs off its search |
| ObjectMap.JBasicObjectMap.Get | lsplant/src/main/jni/include/utils/jni_helper.hpp:2142-2157 | Exactly the map lookup, null for absent keys |
| ObjectMap.JBasicObjectMap.Remove | lsplant/src/main/jni/include/utils/jni_helper.hpp:2159-2177 | Exactly the removal of the key |
| ObjectMap.JBasicObjectMap.Finalize | lsplant/src/main/jni/include/utils/jni_helper.hpp:2179-2219 | Compaction keeps the map |
| ObjectMap.JBasicObjectMap.Reserve | lsplant/src/main/jni/include/utils/jni_helper.hpp:2095-2098 | Growing keeps the map |
| ObjectMap.JBasicObjectMap.Clear | lsplant/src/main/jni/include/utils/jni_helper.hpp:2221-2230 | Empties the map |
| ObjectMap.JBasicObjectMap.Recycle | lsplant/src/main/jni/include/utils/jni_helper.hpp:2232-2245 | Empties the map |
| ObjectMap.JBasicObjectMap.MoveFrom | lsplant/src/main/jni/include/utils/jni_helper.hpp:2248-2259 | Moves the map |
| ObjectMap.JBasicObjectMap.Size | lsplant/src/main/jni/include/utils/jni_helper.hpp:2092-2092 | The size is the number of entries |
| ObjectMap.CompactionKeeps | lsplant/src/main/jni/include/utils/jni_helper.hpp:2196-2209 | Rows kept in order represent the same map, with an exact count |
| ObjectMap.SizeIsExact | lsplant/src/main/jni/include/utils/jni_helper.hpp:2092-2092 | With distinct keys, the rows that hold a key are as many as the entries of the map |
| StackTrace.FillInStackTrace | lsplant/src/main/jni/art/runtime/stack.cxx:146-194 | The rebuilt arrays, in terms of the old ones: exactly the rows of methods that are not hidden, in order, a backup as its target, with the native dex pc if it is native; methods first, dex pcs second, and the objects of those rows that have one. A malformed backtrace comes back unchanged |
| StackTrace.AlignedExactly | lsplant/src/main/jni/art/runtime/stack.cxx:178-180 | Frame objects stay aligned with methods and dex pcs if and only if no frame that shows lacks its object |
| TrampolineCode.LastWrittenRuns | lsplant/src/main/jni/lsplant.cc:742-780 | On every architecture, after any sequence of rewrites the trampoline jumps through the method written last; an odd slot is one past its start, an even one holds the pointer |
| TrampolineCode.RewriteHolds | lsplant/src/main/jni/lsplant.cc:1186-1200 | One rewrite, by either form, keeps slot and code in agreement about the pointer |
| TrampolineCode.MovesRun | lsplant/src/main/jni/lsplant.cc:745-774 | The three moves build every pointer below 2^48 |
| TrampolineCode.LiteralRuns | lsplant/src/main/jni/lsplant.cc:84-108 | The literal form loads the pointer and the entry point offset on each of the five architectures |
| TrampolineCode.UpdateSetsField | lsplant/src/main/jni/lsplant.cc:146-150 | Setting the entry point offset ors it into its eight bits and changes no other byte |
| TrampolineCode.UpdateTrampoline | lsplant/src/main/jni/lsplant.cc:146-150 | The method that does so |
| TrampolineCode.WriteTrampoline | lsplant/src/main/jni/lsplant.cc:742-780 | Writes exactly the code the lemmas are about, and returns the slot |
| TrampolineCode.PatchableHook.SetHookEnabled | lsplant/src/main/jni/lsplant.cc:1170-1207 | Which pointer is in the trampoline after the call, what it returns, and that no byte outside the trampoline changes |
| TrampolineCode.PatchableHook.ValidRuns | lsplant/src/main/jni/lsplant.cc:1191-1200 | The trampoline of a record always jumps through the pointer written last |

## Left out

- Arenas.ArenaAllocator.Alloc: when mmap fails the code falls back to malloc, which gives no zeroing; the model returns nothing and stays unchanged.
- Arenas.MemMapArenaPool.AllocArena: arenas are records in a heap keyed by address rather than objects, so aliasing is that of addresses; the lock of the pool is not modelled.
- TrampolineCode.PatchableHook.SetHookEnabled: says which pointer is written, not that enabling makes the hook run; the code writes the backup when enabling and the hook when disabling.
- TrampolineCode.UpdateTrampoline: on x86 and x64 the entry point offset is a signed byte, so the code lemmas ask for offsets below 128.
- TrampolinePool.SlotsAreDisjoint: the failure of mprotect after a slot was claimed, and writing code into the slot, are not steps; the slot stays claimed.
- TrampolinePool.CounterNeverCarries: the pool word is unbounded; it could only wrap at the last page of the address space.
- ObjectList.JBasicObjectList.Add: lengths are unbounded; overflow of a 32-bit length is not modelled.
- StackTrace.FillInStackTrace: weak and local references, exceptions and the JNI calls around the arrays are not modelled.
- Lsplant.Lsplant.HookMethod: the JNI reflection around it, the generated class and a failed hook's leftovers are not modelled; whether the trampoline could be made is a parameter.
- Lsplant.Lsplant.RegisterNative: the access flags ART changes while registering, and NativeMethodEntryPointUpdater, which may copy the trampoline into the backup when only data changed (lsplant/src/main/jni/art/runtime/class_linker.cxx:84-90).
- Lsplant.Lsplant.Deoptimize: the interpreter bridge is taken as one address; ART's own function for entering the interpreter on older releases is not modelled.
- ArtMethods.FlagsAfterHook: flag words are sets of bit numbers.
- HookStub.HookCallsBack: DexBuilder's own encoding, register limits of dex instructions and exceptions thrown by the callback; registers are assumed sequential, each instruction to have its plain meaning.
- NativeHooker.NativeHookerEntry: unboxing an object of the wrong class is undefined in JNI and excluded; the marking of the target as non-native during the call is not modelled.
- Weak memory orders: every atomic access is sequentially consistent.
- The garbage collector, thread suspension, mprotect and cache flushing around patching.
- The JIT movement list, internal methods that follow a hook, proxy interface lookup and the interpreter entry point of releases before API 23.
- ResetCurrentArena: the next update of the byte count writes 0 over the old head's count, so arenas it touched are not cleared when recycled (lsplant/src/main/jni/art/base/arena_allocator.cxx:219-224, 277-283).
- The stack visitors' per-frame hooks, symbol lookup, offset probing, reflection, dex loading, logging, array slices and stride iterators.
