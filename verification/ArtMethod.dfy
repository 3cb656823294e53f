/** ART's method record: the four words LSPlant reads and writes in place. */
module ArtMethods {

  // Addresses of code, of native functions and of other data; 0 is the null pointer.
  type Address = int

  // ArtMethod, dex::ClassDef and art::Thread pointers; 0 is the null pointer.
  type Method = int
  type ClassDef = int
  type Thread = int

  // A 32-bit flag word, as the set of the numbers of its bits that are 1.
  type Flags = set<nat>

  const ACC_PUBLIC: Flags := {0}
  const ACC_PRIVATE: Flags := {1}
  const ACC_PROTECTED: Flags := {2}
  const ACC_STATIC: Flags := {3}
  const ACC_NATIVE: Flags := {8}
  const ACC_ABSTRACT: Flags := {10}
  const ACC_CONSTRUCTOR: Flags := {16}

  // The flags whose place depends on the Android release; an empty one has no effect.
  function AccPreCompiled(sdk: nat): Flags {
    if sdk < 30 then {} else if sdk >= 31 then {23} else {21}
  }

  function AccCompileDontBother(sdk: nat): Flags {
    if sdk < 24 then {} else if sdk == 26 then {24} else {25}
  }

  function AccFastInterpreter(sdk: nat): Flags {
    if sdk < 29 then {} else {30}
  }

  function AccIntrinsic(sdk: nat): Flags {
    if sdk < 26 then {} else {31}
  }

  /** The contents of a method record. */
  datatype Record = Record(entryPoint: Address, data: Address, accessFlags: Flags, declaringClass: ClassDef) {
    predicate IsStatic() { ACC_STATIC <= accessFlags }

    predicate IsNative() { ACC_NATIVE <= accessFlags }

    predicate IsAbstract() { ACC_ABSTRACT <= accessFlags }
  }

  function NonCompilable(flags: Flags, sdk: nat): Flags {
    flags + AccCompileDontBother(sdk) - AccPreCompiled(sdk)
  }

  function PrivateUnlessStatic(flags: Flags): Flags {
    if ACC_STATIC <= flags then flags else flags + ACC_PRIVATE - ACC_PROTECTED - ACC_PUBLIC
  }

  // The target's record after a hook whose trampoline is at `trampoline`.
  function HookedRecord(r: Record, sdk: nat, trampoline: Address): Record {
    var flags := NonCompilable(r.accessFlags - AccIntrinsic(sdk), sdk) - AccFastInterpreter(sdk);
    r.(accessFlags := NonCompilable(flags, sdk), entryPoint := trampoline)
  }

  // The record the backup receives from a target with record `r`.
  function BackupRecord(r: Record, sdk: nat): Record {
    var flags := NonCompilable(r.accessFlags - AccIntrinsic(sdk), sdk);
    r.(accessFlags := PrivateUnlessStatic(flags) - ACC_CONSTRUCTOR)
  }

  /** What the order of the flag changes amounts to: the target is never compiled, taken for an intrinsic or
      entered through the fast interpreter, and keeps all its other flags; the backup is not compiled
      either, is no constructor (bit 16), and is private (bit 1, neither 0 nor 2) unless it is static (bit 3);
      then its access is the target's. */
  lemma FlagsAfterHook(r: Record, sdk: nat, trampoline: Address)
    ensures
      var off := AccPreCompiled(sdk) + AccIntrinsic(sdk) + AccFastInterpreter(sdk);
      HookedRecord(r, sdk, trampoline).accessFlags == r.accessFlags - off + AccCompileDontBother(sdk)
    ensures
      var b := BackupRecord(r, sdk);
      && AccCompileDontBother(sdk) <= b.accessFlags
      && b.accessFlags !! AccPreCompiled(sdk) + AccIntrinsic(sdk) && 16 !in b.accessFlags
      && (3 !in r.accessFlags ==> 1 in b.accessFlags && 0 !in b.accessFlags && 2 !in b.accessFlags)
      && forall f | f != 16 && f !in AccPreCompiled(sdk) + AccIntrinsic(sdk) + AccCompileDontBother(sdk) &&
                    (3 in r.accessFlags || f > 2) ::
           f in b.accessFlags <==> f in r.accessFlags
  {
  }

  /** A method record in ART's memory. */
  class ArtMethod {
    var entryPoint: Address
    var data: Address
    var accessFlags: Flags
    var declaringClass: ClassDef

    constructor (r: Record)
      ensures Contents() == r
    {
      entryPoint, data, accessFlags, declaringClass :=
        r.entryPoint, r.data, r.accessFlags, r.declaringClass;
    }

    function Contents(): Record
      reads this
    {
      Record(entryPoint, data, accessFlags, declaringClass)
    }

    method SetEntryPoint(entry: Address)
      modifies this
      ensures Contents() == old(Contents()).(entryPoint := entry)
    {
      entryPoint := entry;
    }

    method SetData(pointer: Address)
      modifies this
      ensures Contents() == old(Contents()).(data := pointer)
    {
      data := pointer;
    }

    method SetAccessFlags(flags: Flags)
      modifies this
      ensures Contents() == old(Contents()).(accessFlags := flags)
    {
      accessFlags := flags;
    }

    method CopyFrom(other: ArtMethod)
      modifies this
      ensures Contents() == old(other.Contents())
    {
      entryPoint, data, accessFlags, declaringClass :=
        other.entryPoint, other.data, other.accessFlags, other.declaringClass;
    }

    method SetNonCompilable(sdk: nat)
      modifies this
      ensures Contents() == old(Contents()).(accessFlags := NonCompilable(old(accessFlags), sdk))
    {
      var flags := accessFlags;
      flags := flags + AccCompileDontBother(sdk);
      flags := flags - AccPreCompiled(sdk);
      SetAccessFlags(flags);
    }

    method SetNonIntrinsic(sdk: nat)
      modifies this
      ensures Contents() == old(Contents()).(accessFlags := old(accessFlags) - AccIntrinsic(sdk))
    {
      SetAccessFlags(accessFlags - AccIntrinsic(sdk));
    }

    method ClearFastInterpretFlag(sdk: nat)
      modifies this
      ensures Contents() == old(Contents()).(accessFlags := old(accessFlags) - AccFastInterpreter(sdk))
    {
      SetAccessFlags(accessFlags - AccFastInterpreter(sdk));
    }

    method SetPrivate()
      modifies this
      ensures Contents() == old(Contents()).(accessFlags :=
                              old(accessFlags) + ACC_PRIVATE - ACC_PROTECTED - ACC_PUBLIC)
    {
      var flags := accessFlags;
      flags := flags + ACC_PRIVATE;
      flags := flags - ACC_PROTECTED;
      flags := flags - ACC_PUBLIC;
      SetAccessFlags(flags);
    }

    method SetNonConstructor()
      modifies this
      ensures Contents() == old(Contents()).(accessFlags := old(accessFlags) - ACC_CONSTRUCTOR)
    {
      SetAccessFlags(accessFlags - ACC_CONSTRUCTOR);
    }

    method BackupTo(backup: ArtMethod, sdk: nat)
      requires backup != this
      modifies this, backup
      ensures Contents() == old(Contents()).(accessFlags :=
                              NonCompilable(old(accessFlags), sdk) - AccFastInterpreter(sdk))
      ensures backup.Contents() == old(Contents()).(accessFlags :=
                                     PrivateUnlessStatic(NonCompilable(old(accessFlags), sdk)))
    {
      SetNonCompilable(sdk);
      backup.CopyFrom(this);
      ClearFastInterpretFlag(sdk);
      if !(ACC_STATIC <= backup.accessFlags) {
        backup.SetPrivate();
      }
    }
  }
}
