/**
  * The machine code of a trampoline: it loads the pointer of a hook method and jumps to that method's
  * entry point. The pointer sits in the code, either as a literal or, on arm64 and below 2^48, in the
  * immediates of three moves (MOVZ and MOVK, section C6.2 of the Arm Architecture Reference Manual).
  */
module TrampolineCode {
  import opened Wrappers

  datatype Arch = Arm64 | Arm | X86 | X64 | Riscv64 {
    /** Where the literal is. */
    function PointerOffset(): nat {
      match this
      case Arm64 => 12
      case Arm => 8
      case X86 => 1
      case X64 => 2
      case Riscv64 => 14
    }

    function PointerSize(): nat { if Arm? || X86? then 4 else 8 }

    /** The bit at which the offset of the entry point goes into the code. */
    function EntryBit(): nat {
      match this
      case Arm64 => 44
      case Arm => 32
      case X86 => 56
      case X64 => 96
      case Riscv64 => 84
    }

    /** The code before, around and after the place of the entry point offset. */
    function Before(): (code: seq<bv8>)
      ensures |code| == match this case Arm64 => 4 case Arm => 4 case X86 => 7 case X64 => 12 case Riscv64 => 8
    {
      match this
      case Arm64 => [0x60, 0x00, 0x00, 0x58]
      case Arm => [0x00, 0x00, 0x9f, 0xe5]
      case X86 => [0xb8] + [0x78, 0x56, 0x34, 0x12] + [0xff, 0x70]
      case X64 => [0x48, 0xbf] + [0xef, 0xcd, 0xab, 0x90, 0x78, 0x56, 0x34, 0x12] + [0xff, 0x77]
      case Riscv64 => [0x17, 0x05, 0x00, 0x00] + [0x03, 0x35, 0xe5, 0x00]
    }

    function Entry(): (code: seq<bv8>)
      ensures |code| == if X86? || X64? then 2 else 4
    {
      match this
      case Arm64 => [0x10, 0x00, 0x40, 0xf8]
      case Arm => [0x00, 0xf0, 0x90, 0xe5]
      case X86 => [0x00, 0xc3]
      case X64 => [0x00, 0xc3]
      case Riscv64 => [0x03, 0x3e, 0x05, 0x00]
    }

    function After(): (code: seq<bv8>)
      ensures |code| == match this case Arm64 => 12 case Arm => 4 case X86 => 0 case X64 => 0 case Riscv64 => 10
    {
      match this
      case Arm64 => [0x00, 0x02, 0x5f, 0xd6] + [0xef, 0xcd, 0xab, 0x90, 0x78, 0x56, 0x34, 0x12]
      case Arm => [0x78, 0x56, 0x34, 0x12]
      case X86 => []
      case X64 => []
      case Riscv64 => [0x02, 0x8e] + [0xef, 0xcd, 0xab, 0x90, 0x78, 0x56, 0x34, 0x12]
    }

    function Template(): (code: seq<bv8>)
      ensures |code| == match this case Arm64 => 20 case Arm => 12 case X86 => 9 case X64 => 14 case Riscv64 => 22
    {
      Before() + Entry() + After()
    }

    /** The size of a slot: even, so that every slot starts at an even address. */
    function SlotSize(): nat {
      (|Template()| + 1) / 2 * 2
    }
  }

  const MOVZ_X0: seq<bv8> := [0x80, 0x46, 0xc2, 0xd2]
  const MOVK_X0_16: seq<bv8> := [0x00, 0xcf, 0xaa, 0xf2]
  const MOVK_X0_0: seq<bv8> := [0x60, 0x15, 0x92, 0xf2]
  const LDUR_X17: seq<bv8> := [0x11, 0x00, 0x40, 0xf8]
  const RET_X17: seq<bv8> := [0x20, 0x02, 0x5f, 0xd6]

  function MoveWords(): (code: seq<bv8>)
    ensures |code| == 12
  {
    MOVZ_X0 + MOVK_X0_16 + MOVK_X0_0
  }

  function Moves(): (code: seq<bv8>)
    ensures |code| == 20
  {
    MoveWords() + LDUR_X17 + RET_X17
  }

  // ----- the entry point offset

  /** The part of a shifted byte that stays in it, and the part that goes into the next byte. */
  function Low(imm: bv8, s: nat): bv8
    requires s < 8
  {
    match s
    case 0 => imm
    case 1 => imm << 1
    case 2 => imm << 2
    case 3 => imm << 3
    case 4 => imm << 4
    case 5 => imm << 5
    case 6 => imm << 6
    case _ => imm << 7
  }

  function High(imm: bv8, s: nat): bv8
    requires s < 8
  {
    match s
    case 0 => 0
    case 1 => imm >> 7
    case 2 => imm >> 6
    case 3 => imm >> 5
    case 4 => imm >> 4
    case 5 => imm >> 3
    case 6 => imm >> 2
    case _ => imm >> 1
  }

  function OrAt(data: seq<bv8>, i: nat, low: bv8, high: bv8): seq<bv8>
    requires i + 1 < |data|
  {
    data[i := data[i] | low][i + 1 := data[i + 1] | high]
  }

  function UpdatedAt(data: seq<bv8>, i: nat, s: nat, imm: bv8): seq<bv8>
    requires i + 1 < |data| && s < 8
  {
    OrAt(data, i, Low(imm, s), High(imm, s))
  }

  function Updated(data: seq<bv8>, bit: nat, imm: bv8): seq<bv8>
    requires bit / 8 + 1 < |data|
  {
    UpdatedAt(data, bit / 8, bit % 8, imm)
  }

  method UpdateTrampoline(data: array<bv8>, bit: nat, imm: bv8)
    requires bit / 8 + 1 < data.Length
    modifies data
    ensures data[..] == Updated(old(data[..]), bit, imm)
  {
    data[bit / 8] := data[bit / 8] | Low(imm, bit % 8);
    data[bit / 8 + 1] := data[bit / 8 + 1] | High(imm, bit % 8);
  }

  /** Two neighbouring bytes as one little-endian number. */
  function Pair(low: bv8, high: bv8): bv16 {
    (low as bv16) | ((high as bv16) << 8)
  }

  /** The immediate at its place in the pair. */
  function InPair(imm: bv8, s: nat): bv16
    requires s < 8
  {
    var wide := imm as bv16;
    match s
    case 0 => wide
    case 1 => wide << 1
    case 2 => wide << 2
    case 3 => wide << 3
    case 4 => wide << 4
    case 5 => wide << 5
    case 6 => wide << 6
    case _ => wide << 7
  }

  lemma ShiftedPair(imm: bv8, s: nat)
    requires s < 8
    ensures Pair(Low(imm, s), High(imm, s)) == InPair(imm, s)
  {
    match s
    case 0 =>
    case 1 =>
    case 2 =>
    case 3 =>
    case 4 =>
    case 5 =>
    case 6 =>
    case _ =>
  }

  lemma PairOr(a: bv8, b: bv8, low: bv8, high: bv8)
    ensures Pair(a | low, b | high) == Pair(a, b) | Pair(low, high)
  {
  }

  function PairAt(data: seq<bv8>, i: nat): bv16
    requires i + 1 < |data|
  {
    Pair(data[i], data[i + 1])
  }

  lemma OrAtPair(data: seq<bv8>, i: nat, low: bv8, high: bv8, k: nat)
    requires i + 1 < |data| && k < |data|
    ensures |OrAt(data, i, low, high)| == |data|
    ensures PairAt(OrAt(data, i, low, high), i) == PairAt(data, i) | Pair(low, high)
    ensures k != i && k != i + 1 ==> OrAt(data, i, low, high)[k] == data[k]
  {
    PairOr(data[i], data[i + 1], low, high);
  }

  lemma UpdatedIsOr(data: seq<bv8>, bit: nat, imm: bv8) returns (low: bv8, high: bv8)
    requires bit / 8 + 1 < |data|
    ensures Updated(data, bit, imm) == OrAt(data, bit / 8, low, high)
    ensures Pair(low, high) == InPair(imm, bit % 8)
  {
    low, high := Low(imm, bit % 8), High(imm, bit % 8);
    ShiftedPair(imm, bit % 8);
  }

  /** Whatever the bit, the immediate is or-ed into the eight bits from there on and into no other. */
  lemma UpdateSetsField(data: seq<bv8>, bit: nat, imm: bv8, k: nat)
    requires bit / 8 + 1 < |data| && k < |data|
    ensures |Updated(data, bit, imm)| == |data|
    ensures PairAt(Updated(data, bit, imm), bit / 8) == PairAt(data, bit / 8) | InPair(imm, bit % 8)
    ensures k != bit / 8 && k != bit / 8 + 1 ==> Updated(data, bit, imm)[k] == data[k]
  {
    var low, high := UpdatedIsOr(data, bit, imm);
    OrAtPair(data, bit / 8, low, high, k);
  }

  // ----- little-endian numbers

  function Word(b: seq<bv8>): bv32
    requires |b| == 4
  {
    (b[0] as bv32) | ((b[1] as bv32) << 8) | ((b[2] as bv32) << 16) | ((b[3] as bv32) << 24)
  }

  function Long(b: seq<bv8>): bv64
    requires |b| == 8
  {
    (Word(b[..4]) as bv64) | ((Word(b[4..]) as bv64) << 32)
  }

  function WordBytes(w: bv32): (b: seq<bv8>)
    ensures |b| == 4 && Word(b) == w
  {
    [(w & 0xff) as bv8, ((w >> 8) & 0xff) as bv8, ((w >> 16) & 0xff) as bv8, ((w >> 24) & 0xff) as bv8]
  }

  function LongBytes(p: bv64): (b: seq<bv8>)
    ensures |b| == 8
  {
    WordBytes((p & 0xffffffff) as bv32) + WordBytes((p >> 32) as bv32)
  }

  lemma Halves(p: bv64)
    ensures (((p & 0xffffffff) as bv32) as bv64) | ((((p >> 32) as bv32) as bv64) << 32) == p
  {
  }

  lemma LongReads(p: bv64)
    ensures Long(LongBytes(p)) == p
  {
    var low, high := (p & 0xffffffff) as bv32, (p >> 32) as bv32;
    assert LongBytes(p)[..4] == WordBytes(low) && LongBytes(p)[4..] == WordBytes(high);
    Halves(p);
  }

  /** A number of the width of a pointer. */
  function Pointer(b: seq<bv8>): bv64
    requires |b| == 4 || |b| == 8
  {
    if |b| == 4 then Word(b) as bv64 else Long(b)
  }

  function PointerBytes(arch: Arch, p: bv64): (b: seq<bv8>)
    requires arch.PointerSize() == 4 ==> p <= 0xffffffff
    ensures |b| == arch.PointerSize()
  {
    if arch.PointerSize() == 4 then WordBytes(p as bv32) else LongBytes(p)
  }

  lemma PointerReads(arch: Arch, p: bv64)
    requires arch.PointerSize() == 4 ==> p <= 0xffffffff
    ensures Pointer(PointerBytes(arch, p)) == p
  {
    LongReads(p);
  }

  function Put(code: seq<bv8>, i: nat, bytes: seq<bv8>): (r: seq<bv8>)
    requires i + |bytes| <= |code|
    ensures |r| == |code|
  {
    code[..i] + bytes + code[i + |bytes|..]
  }

  lemma PutSlice(code: seq<bv8>, i: nat, bytes: seq<bv8>, a: nat, b: nat)
    requires i + |bytes| <= |code| && a <= b <= |code|
    ensures b <= i || i + |bytes| <= a ==> Put(code, i, bytes)[a..b] == code[a..b]
    ensures Put(code, i, bytes)[i..i + |bytes|] == bytes
  {
  }

  // ----- running a trampoline

  /** The method pointer a trampoline loads, and the offset of the entry point it jumps to. */
  datatype Jump = Jump(pointer: bv64, entry: bv8)

  function Immediate(w: bv32): bv64 {
    ((w >> 5) & 0xffff) as bv64
  }

  /** The immediate of a move: bits 5 to 20. */
  function SetImmediate(w: bv32, imm: bv32): bv32 {
    (w & 0xffe0001f) | (imm << 5)
  }

  function Arm64Jump(a: bv32, b: bv32, c: bv32, d: bv32, e: bv32, literal: bv64): Option<Jump> {
    if a == 0x58000060 then                                           // ldr x0, #12
      if (b & 0xfff00fff) == 0xf8400010 && c == 0xd65f0200            // ldur x16, [x0, #entry]; ret x16
      then Some(Jump(literal, ((b >> 12) & 0xff) as bv8)) else None
    else if (a & 0xffe0001f) == 0xd2c00000                            // movz x0, #imm, lsl #32
            && (b & 0xffe0001f) == 0xf2a00000                         // movk x0, #imm, lsl #16
            && (c & 0xffe0001f) == 0xf2800000                         // movk x0, #imm
            && (d & 0xfff00fff) == 0xf8400011 && e == 0xd65f0220      // ldur x17, [x0, #entry]; ret x17
    then Some(Jump((Immediate(a) << 32) | (Immediate(b) << 16) | Immediate(c), ((d >> 12) & 0xff) as bv8))
    else None
  }

  function ArmJump(a: bv32, b: bv32, literal: bv64): Option<Jump> {
    if a == 0xe59f0000 && (b & 0xffffff00) == 0xe590f000              // ldr r0, [pc]; ldr pc, [r0, #entry]
    then Some(Jump(literal, (b & 0xff) as bv8)) else None
  }

  function Riscv64Jump(a: bv32, b: bv32, c: bv32, last: seq<bv8>, literal: bv64): Option<Jump> {
    if a == 0x00000517 && b == 0x00e53503                             // auipc a0, 0; ld a0, 14(a0)
       && (c & 0xf00fffff) == 0x00053e03 && last == [0x02, 0x8e]      // ld t3, entry(a0); c.jr t3
    then Some(Jump(literal, ((c >> 20) & 0xff) as bv8)) else None
  }

  function Runs(arch: Arch, code: seq<bv8>): Option<Jump>
    requires |code| == |arch.Template()|
  {
    match arch
    case Arm64 =>
      Arm64Jump(Word(code[0..4]), Word(code[4..8]), Word(code[8..12]), Word(code[12..16]), Word(code[16..20]),
                Pointer(code[12..20]))
    case Arm => ArmJump(Word(code[0..4]), Word(code[4..8]), Pointer(code[8..12]))
    case X86 =>                                                       // mov eax, imm; push [eax + entry]; ret
      if code[0..1] == [0xb8] && code[5..7] == [0xff, 0x70] && code[7] < 0x80 && code[8..9] == [0xc3]
      then Some(Jump(Pointer(code[1..5]), code[7])) else None
    case X64 =>                                                       // mov rdi, imm; push [rdi + entry]; ret
      if code[0..2] == [0x48, 0xbf] && code[10..12] == [0xff, 0x77] && code[12] < 0x80 && code[13..14] == [0xc3]
      then Some(Jump(Pointer(code[2..10]), code[12])) else None
    case Riscv64 =>
      Riscv64Jump(Word(code[0..4]), Word(code[4..8]), Word(code[8..12]), code[12..14], Pointer(code[14..22]))
  }

  // ----- writing a trampoline

  /** Pointers have the width of the architecture, and displacements on x86 are signed bytes. */
  predicate Fits(arch: Arch, entry: bv8, hook: bv64) {
    (arch.PointerSize() == 4 ==> hook <= 0xffffffff) && (arch.X86? || arch.X64? ==> entry < 0x80)
  }

  function Patched(arch: Arch, entry: bv8): (code: seq<bv8>)
    ensures |code| == |arch.Template()|
  {
    Updated(arch.Template(), arch.EntryBit(), entry)
  }

  function LiteralCode(arch: Arch, entry: bv8, hook: bv64): (code: seq<bv8>)
    requires Fits(arch, entry, hook)
    ensures |code| == |arch.Template()|
  {
    Put(Patched(arch, entry), arch.PointerOffset(), PointerBytes(arch, hook))
  }

  function Move(code: seq<bv8>, i: nat, imm: bv32): seq<bv8>
    requires i + 4 <= |code|
  {
    WordBytes(SetImmediate(Word(code[i..i + 4]), imm))
  }

  function MovesCode(entry: bv8, hook: bv64): (code: seq<bv8>)
    ensures |code| == 20
  {
    var code := Updated(Moves(), 108, entry);
    Move(code, 0, ((hook >> 32) & 0xffff) as bv32) +
    Move(code, 4, ((hook >> 16) & 0xffff) as bv32) +
    Move(code, 8, (hook & 0xffff) as bv32) +
    code[12..]
  }

  predicate UsesMoves(arch: Arch, hook: bv64) {
    arch.Arm64? && hook >> 48 == 0
  }

  function Written(arch: Arch, entry: bv8, hook: bv64): (code: seq<bv8>)
    requires Fits(arch, entry, hook)
    ensures |code| == |arch.Template()|
  {
    if UsesMoves(arch, hook) then MovesCode(entry, hook) else LiteralCode(arch, entry, hook)
  }

  /** The distance of the returned slot from the start. */
  function SlotIn(arch: Arch, hook: bv64): nat {
    if UsesMoves(arch, hook) then 1 else arch.PointerOffset()
  }

  // ----- what is written runs

  lemma SetMiddle(before: seq<bv8>, middle: seq<bv8>, after: seq<bv8>, j: nat, b: bv8)
    requires j < |middle|
    ensures (before + middle + after)[|before| + j := b] == before + middle[j := b] + after
    ensures (before + middle + after)[|before| + j] == middle[j]
  {
  }

  lemma OrMiddle(before: seq<bv8>, middle: seq<bv8>, after: seq<bv8>, j: nat, low: bv8, high: bv8)
    requires j + 1 < |middle|
    ensures OrAt(before + middle + after, |before| + j, low, high) == before + OrAt(middle, j, low, high) + after
  {
    SetMiddle(before, middle, after, j, middle[j] | low);
    SetMiddle(before, middle[j := middle[j] | low], after, j + 1, middle[j + 1] | high);
  }

  /** An update inside the middle part leaves the others alone. */
  lemma UpdatedMiddle(before: seq<bv8>, middle: seq<bv8>, after: seq<bv8>, j: nat, s: nat, imm: bv8)
    requires j + 1 < |middle| && s < 8
    ensures UpdatedAt(before + middle + after, |before| + j, s, imm) == before + UpdatedAt(middle, j, s, imm) + after
  {
    OrMiddle(before, middle, after, j, Low(imm, s), High(imm, s));
  }

  lemma Parts(before: seq<bv8>, middle: seq<bv8>, after: seq<bv8>, a: nat, b: nat)
    requires a <= b
    ensures
      var all, n, m := before + middle + after, |before|, |before| + |middle|;
      && all[n..m] == middle
      && (b <= n ==> all[a..b] == before[a..b])
      && (m <= a && b <= |all| ==> all[a..b] == after[a - m..b - m])
  {
  }

  lemma PatchedParts(arch: Arch, entry: bv8)
    ensures
      var j, s := arch.EntryBit() / 8 - |arch.Before()|, arch.EntryBit() % 8;
      && 0 <= j && j + 1 < |arch.Entry()|
      && Patched(arch, entry) == arch.Before() + UpdatedAt(arch.Entry(), j, s, entry) + arch.After()
  {
    var j, s := arch.EntryBit() / 8 - |arch.Before()|, arch.EntryBit() % 8;
    UpdatedMiddle(arch.Before(), arch.Entry(), arch.After(), j, s, entry);
  }

  lemma Arm64Decodes(entry: bv8, literal: bv64, d: bv32, e: bv32)
    ensures Arm64Jump(Word([0x60, 0x00, 0x00, 0x58]),
                      Word([0x10, 0x00 | (entry << 4), 0x40 | (entry >> 4), 0xf8]),
                      Word([0x00, 0x02, 0x5f, 0xd6]), d, e, literal) == Some(Jump(literal, entry))
  {
  }

  lemma ArmDecodes(entry: bv8, literal: bv64)
    ensures ArmJump(Word([0x00, 0x00, 0x9f, 0xe5]), Word([0x00 | entry, 0xf0 | 0, 0x90, 0xe5]), literal) ==
            Some(Jump(literal, entry))
  {
  }

  lemma Riscv64Decodes(entry: bv8, literal: bv64)
    ensures Riscv64Jump(Word([0x17, 0x05, 0x00, 0x00]), Word([0x03, 0x35, 0xe5, 0x00]),
                        Word([0x03, 0x3e, 0x05 | (entry << 4), 0x00 | (entry >> 4)]), [0x02, 0x8e], literal) ==
            Some(Jump(literal, entry))
  {
  }

  // The bytes around the literal, architecture by architecture.

  lemma Arm64Base(entry: bv8)
    ensures
      var base := Patched(Arm64, entry);
      && base[0..4] == [0x60, 0x00, 0x00, 0x58]
      && base[4..8] == [0x10, 0x00 | (entry << 4), 0x40 | (entry >> 4), 0xf8]
      && base[8..12] == [0x00, 0x02, 0x5f, 0xd6]
  {
    PatchedParts(Arm64, entry);
    Parts(Arm64.Before(), UpdatedAt(Arm64.Entry(), 1, 4, entry), Arm64.After(), 0, 4);
    Parts(Arm64.Before(), UpdatedAt(Arm64.Entry(), 1, 4, entry), Arm64.After(), 8, 12);
  }

  lemma ArmBase(entry: bv8)
    ensures
      var base := Patched(Arm, entry);
      && base[0..4] == [0x00, 0x00, 0x9f, 0xe5]
      && base[4..8] == [0x00 | entry, 0xf0 | 0, 0x90, 0xe5]
  {
    PatchedParts(Arm, entry);
    Parts(Arm.Before(), UpdatedAt(Arm.Entry(), 0, 0, entry), Arm.After(), 0, 4);
  }

  lemma SmallEntry(entry: bv8)
    ensures 0x00 | entry == entry && 0xc3 | (0 as bv8) == 0xc3
  {
  }

  lemma X86Base(entry: bv8)
    ensures
      var base := Patched(X86, entry);
      base[0..1] == [0xb8] && base[5..7] == [0xff, 0x70] && base[7..9] == [entry, 0xc3]
  {
    PatchedParts(X86, entry);
    SmallEntry(entry);
    Parts(X86.Before(), UpdatedAt(X86.Entry(), 0, 0, entry), X86.After(), 0, 1);
    Parts(X86.Before(), UpdatedAt(X86.Entry(), 0, 0, entry), X86.After(), 5, 7);
    assert X86.Before()[0..1] == [0xb8] && X86.Before()[5..7] == [0xff, 0x70];
  }

  lemma X64Base(entry: bv8)
    ensures
      var base := Patched(X64, entry);
      base[0..2] == [0x48, 0xbf] && base[10..12] == [0xff, 0x77] && base[12..14] == [entry, 0xc3]
  {
    PatchedParts(X64, entry);
    SmallEntry(entry);
    Parts(X64.Before(), UpdatedAt(X64.Entry(), 0, 0, entry), X64.After(), 0, 2);
    Parts(X64.Before(), UpdatedAt(X64.Entry(), 0, 0, entry), X64.After(), 10, 12);
    assert X64.Before()[0..2] == [0x48, 0xbf] && X64.Before()[10..12] == [0xff, 0x77];
  }

  lemma Riscv64Base(entry: bv8)
    ensures
      var base := Patched(Riscv64, entry);
      && base[0..4] == [0x17, 0x05, 0x00, 0x00] && base[4..8] == [0x03, 0x35, 0xe5, 0x00]
      && base[8..12] == [0x03, 0x3e, 0x05 | (entry << 4), 0x00 | (entry >> 4)] && base[12..14] == [0x02, 0x8e]
  {
    PatchedParts(Riscv64, entry);
    Parts(Riscv64.Before(), UpdatedAt(Riscv64.Entry(), 2, 4, entry), Riscv64.After(), 0, 4);
    Parts(Riscv64.Before(), UpdatedAt(Riscv64.Entry(), 2, 4, entry), Riscv64.After(), 4, 8);
    Parts(Riscv64.Before(), UpdatedAt(Riscv64.Entry(), 2, 4, entry), Riscv64.After(), 12, 14);
  }

  lemma Arm64LiteralRuns(entry: bv8, hook: bv64)
    ensures Runs(Arm64, LiteralCode(Arm64, entry, hook)) == Some(Jump(hook, entry))
  {
    var base, b := Patched(Arm64, entry), PointerBytes(Arm64, hook);
    PointerReads(Arm64, hook);
    Arm64Base(entry);
    PutSlice(base, 12, b, 0, 4);
    PutSlice(base, 12, b, 4, 8);
    PutSlice(base, 12, b, 8, 12);
    var code := Put(base, 12, b);
    Arm64Decodes(entry, hook, Word(code[12..16]), Word(code[16..20]));
  }

  lemma ArmLiteralRuns(entry: bv8, hook: bv64)
    requires hook <= 0xffffffff
    ensures Runs(Arm, LiteralCode(Arm, entry, hook)) == Some(Jump(hook, entry))
  {
    var base, b := Patched(Arm, entry), PointerBytes(Arm, hook);
    PointerReads(Arm, hook);
    ArmBase(entry);
    PutSlice(base, 8, b, 0, 4);
    PutSlice(base, 8, b, 4, 8);
    ArmDecodes(entry, hook);
  }

  lemma X86LiteralRuns(entry: bv8, hook: bv64)
    requires hook <= 0xffffffff && entry < 0x80
    ensures Runs(X86, LiteralCode(X86, entry, hook)) == Some(Jump(hook, entry))
  {
    var base, b := Patched(X86, entry), PointerBytes(X86, hook);
    PointerReads(X86, hook);
    X86Base(entry);
    PutSlice(base, 1, b, 0, 1);
    PutSlice(base, 1, b, 5, 7);
    PutSlice(base, 1, b, 7, 9);
    var code := Put(base, 1, b);
    assert code[7] == code[7..9][0] && code[8..9] == code[7..9][1..];
  }

  lemma X64LiteralRuns(entry: bv8, hook: bv64)
    requires entry < 0x80
    ensures Runs(X64, LiteralCode(X64, entry, hook)) == Some(Jump(hook, entry))
  {
    var base, b := Patched(X64, entry), PointerBytes(X64, hook);
    PointerReads(X64, hook);
    X64Base(entry);
    PutSlice(base, 2, b, 0, 2);
    PutSlice(base, 2, b, 10, 12);
    PutSlice(base, 2, b, 12, 14);
    var code := Put(base, 2, b);
    assert code[12] == code[12..14][0] && code[13..14] == code[12..14][1..];
  }

  lemma Riscv64LiteralRuns(entry: bv8, hook: bv64)
    ensures Runs(Riscv64, LiteralCode(Riscv64, entry, hook)) == Some(Jump(hook, entry))
  {
    var base, b := Patched(Riscv64, entry), PointerBytes(Riscv64, hook);
    PointerReads(Riscv64, hook);
    Riscv64Base(entry);
    PutSlice(base, 14, b, 0, 4);
    PutSlice(base, 14, b, 4, 8);
    PutSlice(base, 14, b, 8, 12);
    PutSlice(base, 14, b, 12, 14);
    Riscv64Decodes(entry, hook);
  }

  /** The literal form runs on every architecture. */
  lemma LiteralRuns(arch: Arch, entry: bv8, hook: bv64)
    requires Fits(arch, entry, hook)
    ensures Runs(arch, LiteralCode(arch, entry, hook)) == Some(Jump(hook, entry))
  {
    match arch
    case Arm64 => Arm64LiteralRuns(entry, hook);
    case Arm => ArmLiteralRuns(entry, hook);
    case X86 => X86LiteralRuns(entry, hook);
    case X64 => X64LiteralRuns(entry, hook);
    case Riscv64 => Riscv64LiteralRuns(entry, hook);
  }

  lemma MovesParts(entry: bv8)
    ensures
      var code := Updated(Moves(), 108, entry);
      && code[0..4] == MOVZ_X0 && code[4..8] == MOVK_X0_16 && code[8..12] == MOVK_X0_0
      && code[12..16] == [0x11, 0x00 | (entry << 4), 0x40 | (entry >> 4), 0xf8] && code[16..20] == RET_X17
  {
    var load := UpdatedAt(LDUR_X17, 1, 4, entry);
    LoadWord(entry);
    UpdatedMiddle(MoveWords(), LDUR_X17, RET_X17, 1, 4, entry);
    MoveWordsParts();
    Parts(MoveWords(), load, RET_X17, 0, 4);
    Parts(MoveWords(), load, RET_X17, 4, 8);
    Parts(MoveWords(), load, RET_X17, 8, 12);
    Parts(MoveWords(), load, RET_X17, 16, 20);
  }

  lemma LoadWord(entry: bv8)
    ensures UpdatedAt(LDUR_X17, 1, 4, entry) == [0x11, 0x00 | (entry << 4), 0x40 | (entry >> 4), 0xf8]
  {
  }

  lemma MoveWordsParts()
    ensures MoveWords()[0..4] == MOVZ_X0 && MoveWords()[4..8] == MOVK_X0_16 && MoveWords()[8..12] == MOVK_X0_0
  {
    Parts(MOVZ_X0, MOVK_X0_16, MOVK_X0_0, 0, 4);
    Parts(MOVZ_X0, MOVK_X0_16, MOVK_X0_0, 8, 12);
  }

  lemma MoveDecodes(w: bv32, imm: bv32)
    requires imm <= 0xffff
    ensures Immediate(SetImmediate(w, imm)) == imm as bv64
    ensures (SetImmediate(w, imm) & 0xffe0001f) == (w & 0xffe0001f)
  {
  }

  lemma ImmediatesJoin(hook: bv64)
    requires hook >> 48 == 0
    ensures (((hook >> 32) & 0xffff) << 32) | (((hook >> 16) & 0xffff) << 16) | (hook & 0xffff) == hook
  {
  }

  lemma MovesDecode(entry: bv8, hook: bv64)
    requires hook >> 48 == 0
    ensures
      var a := SetImmediate(Word(MOVZ_X0), ((hook >> 32) & 0xffff) as bv32);
      var b := SetImmediate(Word(MOVK_X0_16), ((hook >> 16) & 0xffff) as bv32);
      var c := SetImmediate(Word(MOVK_X0_0), (hook & 0xffff) as bv32);
      var d := Word([0x11, 0x00 | (entry << 4), 0x40 | (entry >> 4), 0xf8]);
      forall literal :: Arm64Jump(a, b, c, d, Word(RET_X17), literal) == Some(Jump(hook, entry))
  {
    MoveDecodes(Word(MOVZ_X0), ((hook >> 32) & 0xffff) as bv32);
    MoveDecodes(Word(MOVK_X0_16), ((hook >> 16) & 0xffff) as bv32);
    MoveDecodes(Word(MOVK_X0_0), (hook & 0xffff) as bv32);
    ImmediatesJoin(hook);
  }

  lemma FiveWords(a: seq<bv8>, b: seq<bv8>, c: seq<bv8>, base: seq<bv8>)
    requires |a| == |b| == |c| == 4 && |base| == 20
    ensures
      var code := a + b + c + base[12..];
      && code[0..4] == a && code[4..8] == b && code[8..12] == c
      && code[12..16] == base[12..16] && code[16..20] == base[16..20]
  {
  }

  /** The three moves build every pointer below 2^48. */
  lemma MovesRun(entry: bv8, hook: bv64)
    requires hook >> 48 == 0
    ensures Runs(Arm64, MovesCode(entry, hook)) == Some(Jump(hook, entry))
  {
    var base := Updated(Moves(), 108, entry);
    var a := Move(base, 0, ((hook >> 32) & 0xffff) as bv32);
    var b := Move(base, 4, ((hook >> 16) & 0xffff) as bv32);
    var c := Move(base, 8, (hook & 0xffff) as bv32);
    FiveWords(a, b, c, base);
    MovesParts(entry);
    MovesDecode(entry, hook);
  }

  lemma WrittenRuns(arch: Arch, entry: bv8, hook: bv64)
    requires Fits(arch, entry, hook)
    ensures Runs(arch, Written(arch, entry, hook)) == Some(Jump(hook, entry))
  {
    if UsesMoves(arch, hook) {
      MovesRun(entry, hook);
    } else {
      LiteralRuns(arch, entry, hook);
    }
  }

  // ----- writing again

  /** What SetHookEnabled does to the code and the recorded slot: an odd slot sends it back to the start of the
      trampoline to write it anew, an even one is where the pointer goes. */
  function Rewrite(arch: Arch, entry: bv8, code: seq<bv8>, slot: nat, hook: bv64): (r: (seq<bv8>, nat))
    requires Fits(arch, entry, hook) && |code| == |arch.Template()|
    ensures |r.0| == |code|
  {
    if slot % 2 == 1 then (Written(arch, entry, hook), if SlotIn(arch, hook) % 2 == 0 then SlotIn(arch, hook) else slot)
    else if slot + arch.PointerSize() <= |code| then (Put(code, slot, PointerBytes(arch, hook)), slot)
    else (code, slot)
  }

  /** The code is one of the two forms, with the slot that belongs to it. */
  predicate Holds(arch: Arch, entry: bv8, code: seq<bv8>, slot: nat, hook: bv64) {
    && Fits(arch, entry, hook)
    && ((slot == 1 && UsesMoves(arch, hook) && code == MovesCode(entry, hook)) ||
        (slot == arch.PointerOffset() && code == LiteralCode(arch, entry, hook)))
  }

  lemma WrittenHolds(arch: Arch, entry: bv8, hook: bv64)
    requires Fits(arch, entry, hook)
    ensures Holds(arch, entry, Written(arch, entry, hook), SlotIn(arch, hook), hook)
  {
  }

  lemma PutTwice(code: seq<bv8>, i: nat, a: seq<bv8>, b: seq<bv8>)
    requires i + |a| <= |code| && |b| == |a|
    ensures Put(Put(code, i, a), i, b) == Put(code, i, b)
  {
  }

  lemma LiteralRewritten(arch: Arch, entry: bv8, old_: bv64, hook: bv64)
    requires Fits(arch, entry, old_) && Fits(arch, entry, hook)
    ensures Put(LiteralCode(arch, entry, old_), arch.PointerOffset(), PointerBytes(arch, hook)) ==
            LiteralCode(arch, entry, hook)
  {
    PutTwice(Patched(arch, entry), arch.PointerOffset(), PointerBytes(arch, old_), PointerBytes(arch, hook));
  }

  lemma RewriteHolds(arch: Arch, entry: bv8, code: seq<bv8>, slot: nat, old_: bv64, hook: bv64)
    requires Holds(arch, entry, code, slot, old_) && Fits(arch, entry, hook)
    ensures |code| == |arch.Template()|
    ensures
      var r := Rewrite(arch, entry, code, slot, hook);
      Holds(arch, entry, r.0, r.1, hook)
  {
    WrittenHolds(arch, entry, hook);
    LiteralRewritten(arch, entry, old_, hook);
    if slot % 2 == 1 {
      assert slot == 1 && (SlotIn(arch, hook) % 2 == 1 ==> SlotIn(arch, hook) == 1);
    } else {
      assert code == LiteralCode(arch, entry, old_) && slot == arch.PointerOffset();
    }
  }

  function RewriteAll(arch: Arch, entry: bv8, code: seq<bv8>, slot: nat, hooks: seq<bv64>): (r: (seq<bv8>, nat))
    requires |code| == |arch.Template()| && forall i | 0 <= i < |hooks| :: Fits(arch, entry, hooks[i])
    ensures |r.0| == |code|
    decreases |hooks|
  {
    if hooks == [] then (code, slot)
    else
      var r := Rewrite(arch, entry, code, slot, hooks[0]);
      RewriteAll(arch, entry, r.0, r.1, hooks[1..])
  }

  lemma {:induction false} RewriteAllHolds(arch: Arch, entry: bv8, code: seq<bv8>, slot: nat, h: bv64, hooks: seq<bv64>)
    requires Holds(arch, entry, code, slot, h)
    requires forall i | 0 <= i < |hooks| :: Fits(arch, entry, hooks[i])
    ensures |code| == |arch.Template()|
    ensures
      var r := RewriteAll(arch, entry, code, slot, hooks);
      Holds(arch, entry, r.0, r.1, if hooks == [] then h else hooks[|hooks| - 1])
    decreases |hooks|
  {
    if hooks != [] {
      RewriteHolds(arch, entry, code, slot, h, hooks[0]);
      var r := Rewrite(arch, entry, code, slot, hooks[0]);
      RewriteAllHolds(arch, entry, r.0, r.1, hooks[0], hooks[1..]);
    }
  }

  lemma HoldsRuns(arch: Arch, entry: bv8, code: seq<bv8>, slot: nat, h: bv64)
    requires Holds(arch, entry, code, slot, h)
    ensures |code| == |arch.Template()| && Runs(arch, code) == Some(Jump(h, entry))
    ensures if slot % 2 == 1 then slot - 1 == 0
            else slot + arch.PointerSize() <= |code| && Pointer(code[slot..slot + arch.PointerSize()]) == h
  {
    if UsesMoves(arch, h) && code == MovesCode(entry, h) && slot == 1 {
      MovesRun(entry, h);
    } else {
      LiteralRuns(arch, entry, h);
      PutSlice(Patched(arch, entry), slot, PointerBytes(arch, h), 0, 0);
      PointerReads(arch, h);
    }
  }

  /** After any sequence of rewrites, and whichever form each of them chose, the trampoline jumps through
      the method written last. An odd slot is one past the start of the trampoline, an even one is where
      that method's pointer is. */
  lemma LastWrittenRuns(arch: Arch, entry: bv8, h: bv64, hooks: seq<bv64>)
    requires Fits(arch, entry, h) && forall i | 0 <= i < |hooks| :: Fits(arch, entry, hooks[i])
    ensures
      var r := RewriteAll(arch, entry, Written(arch, entry, h), SlotIn(arch, h), hooks);
      var last := if hooks == [] then h else hooks[|hooks| - 1];
      && Runs(arch, r.0) == Some(Jump(last, entry))
      && if r.1 % 2 == 1 then r.1 - 1 == 0
         else r.1 + arch.PointerSize() <= |r.0| && Pointer(r.0[r.1..r.1 + arch.PointerSize()]) == last
  {
    WrittenHolds(arch, entry, h);
    RewriteAllHolds(arch, entry, Written(arch, entry, h), SlotIn(arch, h), h, hooks);
    var r := RewriteAll(arch, entry, Written(arch, entry, h), SlotIn(arch, h), hooks);
    HoldsRuns(arch, entry, r.0, r.1, if hooks == [] then h else hooks[|hooks| - 1]);
  }

  // ----- in memory

  method Memcpy(memory: array<bv8>, at: nat, bytes: seq<bv8>)
    requires at + |bytes| <= memory.Length
    modifies memory
    ensures memory[..] == Put(old(memory[..]), at, bytes)
  {
    ghost var before := memory[..];
    for i := 0 to |bytes|
      invariant memory[..at] == before[..at]
      invariant memory[at..at + i] == bytes[..i]
      invariant memory[at + i..] == before[at + i..]
    {
      memory[at + i] := bytes[i];
    }
    assert memory[..] == memory[..at] + memory[at..at + |bytes|] + memory[at + |bytes|..];
  }

  // The 16-bit field of one move instruction.
  method UpdateMoveWideImm(code: array<bv8>, index: nat, imm: bv32)
    requires 4 * index + 4 <= code.Length
    modifies code
    ensures code[..] == Put(old(code[..]), 4 * index, Move(old(code[..]), 4 * index, imm))
  {
    ghost var before := code[..];
    var word := Word(code[4 * index..4 * index + 4]);
    assert before[4 * index..4 * index + 4] == code[4 * index..4 * index + 4];
    Memcpy(code, 4 * index, WordBytes(SetImmediate(word, imm)));
  }

  lemma ThreeMoves(base: seq<bv8>, x: bv32, y: bv32, z: bv32)
    requires |base| == 20
    ensures
      var one := Put(base, 0, Move(base, 0, x));
      var two := Put(one, 4, Move(one, 4, y));
      Put(two, 8, Move(two, 8, z)) == Move(base, 0, x) + Move(base, 4, y) + Move(base, 8, z) + base[12..]
  {
    var a, b, c := Move(base, 0, x), Move(base, 4, y), Move(base, 8, z);
    var one := Put(base, 0, a);
    PutSlice(base, 0, a, 4, 8);
    PutSlice(base, 0, a, 8, 12);
    PutSlice(one, 4, b, 8, 12);
    PutInOrder(base, a, b, c);
  }

  lemma PutInOrder(base: seq<bv8>, a: seq<bv8>, b: seq<bv8>, c: seq<bv8>)
    requires |base| == 20 && |a| == |b| == |c| == 4
    ensures Put(Put(Put(base, 0, a), 4, b), 8, c) == a + b + c + base[12..]
  {
  }

  /** Writes a whole trampoline and gives the address to write to next time. */
  method WriteTrampoline(arch: Arch, entry: bv8, memory: array<bv8>, address: nat, hook: bv64) returns (slot: nat)
    requires Fits(arch, entry, hook) && address + |arch.Template()| <= memory.Length
    modifies memory
    ensures memory[..] == Put(old(memory[..]), address, Written(arch, entry, hook))
    ensures slot == address + SlotIn(arch, hook)
  {
    var code: array<bv8>;
    if arch.Arm64? && hook >> 48 == 0 {
      code := FromBytes(Moves());
      UpdateTrampoline(code, 108, entry);
      ThreeMoves(code[..], ((hook >> 32) & 0xffff) as bv32, ((hook >> 16) & 0xffff) as bv32, (hook & 0xffff) as bv32);
      UpdateMoveWideImm(code, 0, ((hook >> 32) & 0xffff) as bv32);
      UpdateMoveWideImm(code, 1, ((hook >> 16) & 0xffff) as bv32);
      UpdateMoveWideImm(code, 2, (hook & 0xffff) as bv32);
      Memcpy(memory, address, code[..]);
      return address + 1;
    }
    code := FromBytes(arch.Template());
    UpdateTrampoline(code, arch.EntryBit(), entry);
    Memcpy(code, arch.PointerOffset(), PointerBytes(arch, hook));
    Memcpy(memory, address, code[..]);
    slot := address + arch.PointerOffset();
  }

  method FromBytes(bytes: seq<bv8>) returns (code: array<bv8>)
    ensures fresh(code) && code[..] == bytes
  {
    code := new bv8[|bytes|](i requires 0 <= i < |bytes| => bytes[i]);
  }

  lemma Parity(address: nat, offset: nat)
    requires address % 2 == 0
    ensures (address + offset) % 2 == offset % 2
  {
  }

  class PatchableHook {
    const arch: Arch
    const entry: bv8
    const memory: array<bv8>
    const address: nat         // where the trampoline starts
    const hook: bv64
    const backup: bv64
    var slot: nat
    var enabled: bool
    ghost var pointer: bv64    // what was written last

    constructor (arch: Arch, entry: bv8, memory: array<bv8>, address: nat, hook: bv64, backup: bv64)
      requires Fits(arch, entry, hook) && Fits(arch, entry, backup)
      requires address % 2 == 0 && address + |arch.Template()| <= memory.Length
      modifies memory
      ensures Valid() && pointer == hook && enabled
      ensures this.arch == arch && this.entry == entry && this.memory == memory && this.address == address
    {
      this.arch, this.entry, this.memory, this.address, this.hook, this.backup := arch, entry, memory, address, hook, backup;
      pointer, enabled := hook, true;
      slot := 0;
      new;
      WrittenInMemory(arch, entry, memory[..], address, hook);
      slot := WriteTrampoline(arch, entry, memory, address, hook);
    }

    ghost function Code(): seq<bv8>
      requires address + |arch.Template()| <= memory.Length
      reads memory
    {
      memory[..][address..address + |arch.Template()|]
    }

    ghost predicate Valid()
      reads this, memory
    {
      && Fits(arch, entry, hook) && Fits(arch, entry, backup)
      && address % 2 == 0 && address + |arch.Template()| <= memory.Length
      && address <= slot && Holds(arch, entry, Code(), slot - address, pointer)
    }

    /** The trampoline always jumps through what was written last, and an odd slot is one past its start. */
    lemma ValidRuns()
      requires Valid()
      ensures Runs(arch, Code()) == Some(Jump(pointer, entry))
      ensures slot % 2 == 1 ==> slot - 1 == address
    {
      Parity(address, slot - address);
      HoldsRuns(arch, entry, Code(), slot - address, pointer);
    }

    /** Asking for the state a record already has changes nothing; otherwise the backup is written when
        enabling and the hook when disabling. */
    method SetHookEnabled(enable: bool) returns (was: bool)
      requires Valid()
      modifies this, memory
      ensures Valid() && enabled == enable && was == old(enabled)
      ensures pointer == if old(enabled) == enable then old(pointer) else if enable then backup else hook
      ensures memory[..address] == old(memory[..address])
      ensures memory[address + |arch.Template()|..] == old(memory[address + |arch.Template()|..])
    {
      if enabled == enable {
        return enable;
      }
      enabled := enable;
      Repatch(if enable then backup else hook);
      was := !enable;
    }

    method Repatch(target: bv64)
      requires Valid() && Fits(arch, entry, target)
      modifies this`slot, this`pointer, memory
      ensures Valid() && pointer == target
      ensures memory[..address] == old(memory[..address])
      ensures memory[address + |arch.Template()|..] == old(memory[address + |arch.Template()|..])
    {
      if slot % 2 == 1 {
        RewriteWhole(target);
      } else {
        RewriteLiteral(target);
      }
    }

    // An odd slot: the trampoline starts one byte before it.
    method RewriteWhole(target: bv64)
      requires Valid() && Fits(arch, entry, target) && slot % 2 == 1
      modifies this`slot, this`pointer, memory
      ensures Valid() && pointer == target
      ensures memory[..address] == old(memory[..address])
      ensures memory[address + |arch.Template()|..] == old(memory[address + |arch.Template()|..])
    {
      Parity(address, slot - address);
      OddSlots(arch, slot - address);
      OddSlots(arch, SlotIn(arch, target));
      WrittenInMemory(arch, entry, memory[..], address, target);
      Parity(address, SlotIn(arch, target));
      var start := slot - 1;
      assert start == address;
      var next := WriteTrampoline(arch, entry, memory, start, target);
      assert memory[..] == Put(old(memory[..]), address, Written(arch, entry, target));
      if next % 2 == 0 {
        slot := next;
      }
      assert slot == next;
      pointer := target;
    }

    // An even slot: the pointer goes right there.
    method RewriteLiteral(target: bv64)
      requires Valid() && Fits(arch, entry, target) && slot % 2 == 0
      modifies this`pointer, memory
      ensures Valid() && pointer == target
      ensures memory[..address] == old(memory[..address])
      ensures memory[address + |arch.Template()|..] == old(memory[address + |arch.Template()|..])
    {
      Parity(address, slot - address);
      LiteralInMemory(arch, entry, memory[..], address, slot - address, pointer, target);
      Memcpy(memory, slot, PointerBytes(arch, target));
      pointer := target;
    }
  }

  lemma OddSlots(arch: Arch, slot: nat)
    requires slot == 1 || slot == arch.PointerOffset()
    ensures slot % 2 == 1 <==> slot == 1
  {
    match arch
    case Arm64 =>
    case Arm =>
    case X86 =>
    case X64 =>
    case Riscv64 =>
  }

  lemma WrittenInMemory(arch: Arch, entry: bv8, memory: seq<bv8>, address: nat, target: bv64)
    requires address + |arch.Template()| <= |memory| && Fits(arch, entry, target)
    ensures
      var after, n := Put(memory, address, Written(arch, entry, target)), |arch.Template()|;
      && after[..address] == memory[..address] && after[address + n..] == memory[address + n..]
      && Holds(arch, entry, after[address..address + n], SlotIn(arch, target), target)
  {
    var n, written := |arch.Template()|, Written(arch, entry, target);
    WrittenHolds(arch, entry, target);
    PutSlice(memory, address, written, 0, address);
    PutSlice(memory, address, written, address + n, |memory|);
  }

  lemma LiteralInMemory(arch: Arch, entry: bv8, memory: seq<bv8>, address: nat, slot: nat, old_: bv64, target: bv64)
    requires address + |arch.Template()| <= |memory| && Fits(arch, entry, target) && slot % 2 == 0
    requires Holds(arch, entry, memory[address..address + |arch.Template()|], slot, old_)
    ensures slot + arch.PointerSize() <= |arch.Template()|
    ensures
      var after, n := Put(memory, address + slot, PointerBytes(arch, target)), |arch.Template()|;
      && after[..address] == memory[..address] && after[address + n..] == memory[address + n..]
      && Holds(arch, entry, after[address..address + n], slot, target)
  {
    var n := |arch.Template()|;
    var code := memory[address..address + n];
    RewriteHolds(arch, entry, code, slot, old_, target);
    assert slot + arch.PointerSize() <= n;
    PutInside(memory, address, n, slot, PointerBytes(arch, target));
  }

  /** Writing inside a region is writing inside that part of memory. */
  lemma PutInside(memory: seq<bv8>, at: nat, n: nat, i: nat, bytes: seq<bv8>)
    requires at + n <= |memory| && i + |bytes| <= n
    ensures Put(memory, at + i, bytes)[at..at + n] == Put(memory[at..at + n], i, bytes)
    ensures Put(memory, at + i, bytes)[..at] == memory[..at]
    ensures Put(memory, at + i, bytes)[at + n..] == memory[at + n..]
  {
  }
}
