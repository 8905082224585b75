/** The Thumb instruction set as the interpreter executes it, the table that tells the translator
    which flags each instruction may modify, must modify and needs, and the proof of exactly which
    encodings the table describes correctly. */
module ThumbFlags {
  import opened DeadFlags
  import opened FlagArith
  import opened Word32

  type Opcode = op: int | 0 <= op < 0x10000

  /** The general registers; r[15] is the address of the instruction. */
  type Regs = r: seq<u32> | |r| == 16 witness seq(16, _ => 0)

  const ZEROES: Regs := seq(16, _ => 0)

  datatype Cpu<M> = Cpu(r: Regs, mem: M)

  /** What the interpreter calls into: loads and stores, the word that a load yields (from memory, the
      program counter at that time, and the address), entry into a software interrupt (which saves the
      flags), and the position in a block that an address stands for. */
  datatype World<!M> = World(
    access: (Opcode, Cpu<M>) -> Cpu<M>,
    load: (M, u32, u32) -> u32,
    swi: (Cpu<M>, Flags) -> Cpu<M>,
    place: u32 -> int)

  function High(op: Opcode): int { op / 256 }

  function Rd(op: Opcode): int { op % 8 }

  function Rs(op: Opcode): int { (op / 8) % 8 }

  function Rn(op: Opcode): int { (op / 64) % 8 }

  function AluSub(op: Opcode): int { (op / 64) % 4 }

  function Imm8(op: Opcode): int { op % 256 }

  function Imm5(op: Opcode): int { (op / 64) % 32 }

  function HiRs(op: Opcode): int { (op / 8) % 16 }

  function HiRd(op: Opcode): int { (op / 128) % 2 * 8 + op % 8 }

  // ----------------------------------------------------------------------------------------------
  // Interpreter
  // ----------------------------------------------------------------------------------------------

  const NZ := Flags(true, true, false, false)
  const NZC := Flags(true, true, true, false)

  function Advance<M>(s: Cpu<M>, rd: int, dest: u32): Cpu<M>
    requires 0 <= rd < 15
  {
    s.(r := s.r[rd := dest][15 := Plus(s.r[15], 2)])
  }

  function Skip<M>(s: Cpu<M>): Cpu<M> { s.(r := s.r[15 := Plus(s.r[15], 2)]) }

  function LogicFlags(dest: u32): Flags { Flags(Negative(dest), dest == 0, false, false) }

  function Logic<M>(s: Cpu<M>, rd: int, dest: u32): Effect<Cpu<M>>
    requires 0 <= rd < 15
  {
    Effect(Advance(s, rd, dest), NZ, LogicFlags(dest), Fall)
  }

  function Arithmetic<M>(s: Cpu<M>, rd: int, x: Result): Effect<Cpu<M>>
    requires 0 <= rd < 15
  {
    Effect(Advance(s, rd, x.dest), ALL, x.flags, Fall)
  }

  function Compare<M>(s: Cpu<M>, x: Result): Effect<Cpu<M>> {
    Effect(Skip(s), ALL, x.flags, Fall)
  }

  function Test<M>(s: Cpu<M>, dest: u32): Effect<Cpu<M>> {
    Effect(Skip(s), NZ, LogicFlags(dest), Fall)
  }

  /** Result of a shift: the value, and the carry when the shifter writes it. */
  datatype Shifted = Shifted(dest: u32, writesC: bool, c: bool)

  function Shift<M>(s: Cpu<M>, rd: int, x: Shifted): Effect<Cpu<M>>
    requires 0 <= rd < 15
  {
    Effect(Advance(s, rd, x.dest), if x.writesC then NZC else NZ,
           LogicFlags(x.dest).Or(Flags(false, false, x.c, false)), Fall)
  }

  function LslImm(x: u32, imm: nat): Shifted
    requires imm < 32
  {
    if imm == 0 then Shifted(x, false, false)
    else Shifted(ShiftLeft(x, imm), true, Odd(ShiftRight(x, 32 - imm)))
  }

  function LsrImm(x: u32, imm: nat): Shifted
    requires imm < 32
  {
    if imm == 0 then Shifted(0, true, Negative(x))
    else Shifted(ShiftRight(x, imm), true, Odd(ShiftRight(x, imm - 1)))
  }

  function AsrImm(x: u32, imm: nat): Shifted
    requires imm < 32
  {
    if imm == 0 then Shifted(ShiftRightSigned(x, 31), true, Negative(x))
    else Shifted(ShiftRightSigned(x, imm), true, Odd(ShiftRight(x, imm - 1)))
  }

  function LslReg(x: u32, n: u32): Shifted {
    if n == 0 then Shifted(x, false, false)
    else if n > 31 then Shifted(0, true, n == 32 && Odd(x))
    else Shifted(ShiftLeft(x, n), true, Odd(ShiftRight(x, 32 - n)))
  }

  function LsrReg(x: u32, n: u32): Shifted {
    if n == 0 then Shifted(x, false, false)
    else if n > 31 then Shifted(0, true, n == 32 && Negative(x))
    else Shifted(ShiftRight(x, n), true, Odd(ShiftRight(x, n - 1)))
  }

  function AsrReg(x: u32, n: u32): Shifted {
    if n == 0 then Shifted(x, false, false)
    else if n > 31 then Shifted(ShiftRightSigned(x, 31), true, Negative(x))
    else Shifted(ShiftRightSigned(x, n), true, Odd(ShiftRight(x, n - 1)))
  }

  /** For amounts of 32 and more the source leaves the value to the host's shift; the amount is taken
      modulo 32 here. The carry is written for every nonzero amount, as in the source. */
  function RorReg(x: u32, n: u32): Shifted {
    if n == 0 then Shifted(x, false, false)
    else Shifted(Rotate(x, n % 32), true, Odd(ShiftRight(x, (n - 1) % 32)))
  }

  function Quiet<S>(s: S): Effect<S> { Effect(s, NONE, NONE, Fall) }

  function Jump<M>(w: World<M>, s: Cpu<M>, target: u32): Effect<Cpu<M>> {
    Effect(s.(r := s.r[15 := target]), NONE, NONE, Goto(w.place(target)))
  }

  function ShiftOrAdd<M>(op: Opcode, s: Cpu<M>): Effect<Cpu<M>>
    requires High(op) < 0x40
  {
    var hi := High(op);
    var r := s.r;
    if hi <= 0x07 then Shift(s, Rd(op), LslImm(r[Rs(op)], Imm5(op)))
    else if hi <= 0x0F then Shift(s, Rd(op), LsrImm(r[Rs(op)], Imm5(op)))
    else if hi <= 0x17 then Shift(s, Rd(op), AsrImm(r[Rs(op)], Imm5(op)))
    else if hi <= 0x19 then Arithmetic(s, Rd(op), AddWithFlags(r[Rs(op)], r[Rn(op)], false))
    else if hi <= 0x1B then Arithmetic(s, Rd(op), SubWithFlags(r[Rs(op)], r[Rn(op)], true))
    else if hi <= 0x1D then Arithmetic(s, Rd(op), AddWithFlags(r[Rs(op)], Rn(op), false))
    else if hi <= 0x1F then Arithmetic(s, Rd(op), SubWithFlags(r[Rs(op)], Rn(op), true))
    else if hi <= 0x27 then Logic(s, hi % 8, Imm8(op))
    else if hi <= 0x2F then Compare(s, SubWithFlags(r[hi % 8], Imm8(op), true))
    else if hi <= 0x37 then Arithmetic(s, hi % 8, AddWithFlags(r[hi % 8], Imm8(op), false))
    else Arithmetic(s, hi % 8, SubWithFlags(r[hi % 8], Imm8(op), true))
  }

  function Alu<M>(op: Opcode, s: Cpu<M>, f: Flags): Effect<Cpu<M>>
    requires 0x40 <= High(op) <= 0x43
  {
    var rd, x, y := Rd(op), s.r[Rd(op)], s.r[Rs(op)];
    match High(op) * 4 + AluSub(op)
    case 0x100 => Logic(s, rd, And(x, y))
    case 0x101 => Logic(s, rd, Xor(x, y))
    case 0x102 => Shift(s, rd, LslReg(x, y))
    case 0x103 => Shift(s, rd, LsrReg(x, y))
    case 0x104 => Shift(s, rd, AsrReg(x, y))
    case 0x105 => Arithmetic(s, rd, AddWithFlags(x, y, f.c))
    case 0x106 => Arithmetic(s, rd, SubWithFlags(x, y, f.c))
    case 0x107 => Shift(s, rd, RorReg(x, y))
    case 0x108 => Test(s, And(x, y))
    case 0x109 => Arithmetic(s, rd, SubWithFlags(0, y, true))
    case 0x10A => Compare(s, SubWithFlags(x, y, true))
    case 0x10B => Compare(s, AddWithFlags(x, y, false))
    case 0x10C => Logic(s, rd, Or(x, y))
    case 0x10D => Logic(s, rd, Times(x, y))
    case 0x10E => Logic(s, rd, And(x, Not(y)))
    case _ => Logic(s, rd, Not(y))
  }

  function HiReg<M>(w: World<M>, op: Opcode, s: Cpu<M>): Effect<Cpu<M>>
    requires 0x44 <= High(op) <= 0x47
  {
    var seen := s.r[15 := Plus(s.r[15], 4)];
    var x, y := seen[HiRd(op)], seen[HiRs(op)];
    if High(op) == 0x45 then Compare(s, SubWithFlags(x, y, true))
    else if High(op) == 0x47 then Jump(w, s, if Odd(y) then y - 1 else y)
    else
      var dest := if High(op) == 0x44 then Plus(x, y) else y;
      if HiRd(op) == 15 then Jump(w, s, AlignDown(dest, 2)) else Quiet(Advance(s, HiRd(op), dest))
  }

  /** An 8-bit branch offset, in bytes. */
  function ShortOffset(op: Opcode): int {
    2 * (if op % 0x100 < 0x80 then op % 0x100 else op % 0x100 - 0x100)
  }

  /** An 11-bit branch offset, in halfwords. */
  function LongOffset(op: Opcode): int {
    if op % 0x800 < 0x400 then op % 0x800 else op % 0x800 - 0x800
  }

  /** Branches: conditional, software interrupt, B, and the two halves of BL. */
  function Branch<M>(w: World<M>, op: Opcode, s: Cpu<M>, f: Flags): Effect<Cpu<M>>
    requires 0xD0 <= High(op) <= 0xE7 || 0xF0 <= High(op)
  {
    var hi, pc := High(op), s.r[15];
    if hi <= 0xDD then
      if ThumbTakes(hi - 0xD0, f) then Jump(w, s, Wrap(pc + ShortOffset(op) + 4)) else Quiet(Skip(s))
    else if hi == 0xDE then Effect(s, NONE, NONE, Goto(w.place(pc)))
    else if hi == 0xDF then Jump(w, w.swi(s, f), 8)
    else if hi <= 0xE7 then Jump(w, s, Wrap(pc + 2 * LongOffset(op) + 4))
    else if hi <= 0xF7 then Quiet(Advance(s, 14, Wrap(pc + 4 + LongOffset(op) * 0x1000)))
    else
      var link := Wrap(pc + 2);
      Jump(w, s.(r := s.r[14 := link - link % 2 + 1]), Wrap(s.r[14] + (op % 0x800) * 2))
  }

  /** Encodings that no case of the interpreter handles: it does nothing and stays where it is. */
  predicate Undefined(op: Opcode) {
    var hi := High(op);
    0xB6 <= hi <= 0xBB || hi == 0xBE || hi == 0xBF || hi == 0xDE || 0xE8 <= hi <= 0xEF
  }

  function Execute<M>(w: World<M>, op: Opcode, s: Cpu<M>, f: Flags): Effect<Cpu<M>> {
    var hi, pc := High(op), s.r[15];
    if hi < 0x40 then ShiftOrAdd(op, s)
    else if hi <= 0x43 then Alu(op, s, f)
    else if hi <= 0x47 then HiReg(w, op, s)
    else if 0xD0 <= hi <= 0xE7 || 0xF0 <= hi then Branch(w, op, s, f)
    else if Undefined(op) then Effect(s, NONE, NONE, Goto(w.place(pc)))
    else if 0x48 <= hi <= 0x4F then
      var stepped := Plus(pc, 2);
      var back := Wrap(stepped - 2);
      Quiet(Advance(s, hi % 8, w.load(s.mem, stepped, Wrap(back - 2 * (back / 2 % 2) + Imm8(op) * 4 + 4))))
    else if 0xA0 <= hi <= 0xA7 then Quiet(Advance(s, hi % 8, Wrap(pc - 2 * (pc / 2 % 2) + 4 + Imm8(op) * 4)))
    else if hi <= 0xAF && 0xA8 <= hi then Quiet(Advance(s, hi % 8, Wrap(s.r[13] + Imm8(op) * 4)))
    else if 0xB0 <= hi <= 0xB3 then
      var offset := (op % 128) * 4;
      Quiet(Advance(s, 13, Wrap(if (op / 128) % 2 == 1 then s.r[13] - offset else s.r[13] + offset)))
    else if hi == 0xBD then
      var popped := w.access(op, s);
      Jump(w, popped, popped.r[15])
    else Quiet(w.access(op, s))
  }

  // ----------------------------------------------------------------------------------------------
  // The flag table
  // ----------------------------------------------------------------------------------------------

  const MODIFIES_ALL: bv16 := 0xFF
  const MODIFIES_ZN: bv16 := 0xCC
  const MODIFIES_ZNC: bv16 := 0xEE
  const MODIFIES_ZN_MAYBE_C: bv16 := 0xCE
  const MODIFIES_ALL_REQUIRES_C: bv16 := 0x2FF
  const REQUIRES_ALL: bv16 := 0xF00

  predicate IsMovPc(op: Opcode) { High(op) == 0x46 && HiRd(op) == 15 }

  function FlagStatus(op: Opcode): bv16 {
    var hi := High(op);
    if hi <= 0x07 then if Imm5(op) != 0 then MODIFIES_ZNC else MODIFIES_ZN
    else if hi <= 0x17 then MODIFIES_ZNC
    else if hi <= 0x1F then MODIFIES_ALL
    else if hi <= 0x27 then MODIFIES_ZN
    else if hi <= 0x3F then MODIFIES_ALL
    else if hi == 0x40 then if AluSub(op) <= 1 then MODIFIES_ZN else MODIFIES_ZN_MAYBE_C
    else if hi == 0x41 then
      if AluSub(op) == 0 || AluSub(op) == 3 then MODIFIES_ZN_MAYBE_C else MODIFIES_ALL_REQUIRES_C
    else if hi == 0x42 then MODIFIES_ALL
    else if hi == 0x43 then MODIFIES_ZN
    else if hi == 0x45 then MODIFIES_ALL
    else if IsMovPc(op) || hi == 0x47 || hi == 0xBD || 0xD0 <= hi <= 0xE7 || 0xF0 <= hi then REQUIRES_ALL
    else 0
  }

  lemma UnpackedRows()
    ensures Unpack(MODIFIES_ALL) == FlagWord(ALL, ALL, NONE)
    ensures Unpack(MODIFIES_ZN) == FlagWord(NZ, NZ, NONE)
    ensures Unpack(MODIFIES_ZNC) == FlagWord(NZC, NZC, NONE)
    ensures Unpack(MODIFIES_ZN_MAYBE_C) == FlagWord(NZC, NZ, NONE)
    ensures Unpack(MODIFIES_ALL_REQUIRES_C) == FlagWord(ALL, ALL, Flags(false, false, true, false))
    ensures Unpack(REQUIRES_ALL) == FlagWord(NONE, NONE, ALL)
    ensures Unpack(0) == FlagWord(NONE, NONE, NONE)
  {
  }

  /** Every row fits the 12 bits the pass works on. */
  lemma RowsFit(op: Opcode)
    ensures FlagStatus(op) & 0xF000 == 0
  {
  }

  function AsInsn<M>(w: World<M>, op: Opcode): Insn<Cpu<M>> {
    Insn(Unpack(FlagStatus(op)), (s, f) => Execute(w, op, s, f))
  }

  predicate IsTst(op: Opcode) { High(op) == 0x42 && AluSub(op) == 0 }

  predicate IsAddPc(op: Opcode) { High(op) == 0x44 && HiRd(op) == 15 }

  /** The encodings the table gets wrong. TST is listed as always writing carry and overflow, which it
      leaves alone; ADD pc is not listed as a jump; the undefined encodings outside the conditional
      branch row stop the interpreter where they stand, which the table does not say either. */
  predicate Misdescribed(op: Opcode) {
    IsTst(op) || IsAddPc(op) || (Undefined(op) && High(op) != 0xDE)
  }

  lemma ShiftRowRespects<M>(w: World<M>, op: Opcode, s: Cpu<M>, a: Flags, b: Flags)
    requires High(op) < 0x18
    ensures RespectsAt(AsInsn(w, op), s, a, b)
  {
    UnpackedRows();
    var e := ShiftOrAdd(op, s);
    assert Execute(w, op, s, a) == e && Execute(w, op, s, b) == e;
    assert e.next == Fall;
  }

  lemma AddRowRespects<M>(w: World<M>, op: Opcode, s: Cpu<M>, a: Flags, b: Flags)
    requires 0x18 <= High(op) < 0x40
    ensures RespectsAt(AsInsn(w, op), s, a, b)
  {
    UnpackedRows();
    var e := ShiftOrAdd(op, s);
    assert Execute(w, op, s, a) == e && Execute(w, op, s, b) == e;
    assert e.next == Fall;
  }

  predicate IsRegisterShift(op: Opcode) {
    (High(op) == 0x40 && AluSub(op) >= 2) || (High(op) == 0x41 && (AluSub(op) == 0 || AluSub(op) == 3))
  }

  predicate IsCarryArithmetic(op: Opcode) {
    High(op) == 0x41 && (AluSub(op) == 1 || AluSub(op) == 2)
  }

  lemma RegisterShiftWrites<M>(op: Opcode, s: Cpu<M>, f: Flags)
    requires IsRegisterShift(op)
    ensures var e := Alu(op, s, f); e.next == Fall && (e.writes == NZ || e.writes == NZC)
  {
    var x, y := s.r[Rd(op)], s.r[Rs(op)];
    var code := High(op) * 4 + AluSub(op);
    assert code == 0x102 || code == 0x103 || code == 0x104 || code == 0x107;
    assert exists t: Shifted :: Alu(op, s, f) == Shift(s, Rd(op), t) by {
      assert code == 0x102 ==> Alu(op, s, f) == Shift(s, Rd(op), LslReg(x, y));
      assert code == 0x103 ==> Alu(op, s, f) == Shift(s, Rd(op), LsrReg(x, y));
      assert code == 0x104 ==> Alu(op, s, f) == Shift(s, Rd(op), AsrReg(x, y));
      assert code == 0x107 ==> Alu(op, s, f) == Shift(s, Rd(op), RorReg(x, y));
    }
  }

  lemma PlainAluWrites<M>(op: Opcode, s: Cpu<M>, f: Flags)
    requires 0x40 <= High(op) <= 0x43 && !IsRegisterShift(op)
    ensures var e := Alu(op, s, f);
            && e.next == Fall
            && e.writes == if IsCarryArithmetic(op) || (High(op) == 0x42 && !IsTst(op)) then ALL else NZ
  {
  }

  lemma AluReadsOnlyCarry<M>(op: Opcode, s: Cpu<M>, a: Flags, b: Flags)
    requires 0x40 <= High(op) <= 0x43
    requires IsCarryArithmetic(op) ==> a.c == b.c
    ensures Alu(op, s, a) == Alu(op, s, b)
  {
  }

  lemma RegisterShiftRowRespects<M>(w: World<M>, op: Opcode, s: Cpu<M>, a: Flags, b: Flags)
    requires IsRegisterShift(op)
    ensures RespectsAt(AsInsn(w, op), s, a, b)
  {
    UnpackedRows();
    RegisterShiftWrites(op, s, a);
    AluReadsOnlyCarry(op, s, a, b);
  }

  lemma PlainAluRowRespects<M>(w: World<M>, op: Opcode, s: Cpu<M>, a: Flags, b: Flags)
    requires 0x40 <= High(op) <= 0x43 && !IsTst(op) && !IsRegisterShift(op)
    ensures RespectsAt(AsInsn(w, op), s, a, b)
  {
    UnpackedRows();
    PlainAluWrites(op, s, a);
    if AgreeOn(Unpack(FlagStatus(op)).needs, a, b) {
      AluReadsOnlyCarry(op, s, a, b);
    }
  }

  lemma HiRegRowRespects<M>(w: World<M>, op: Opcode, s: Cpu<M>, a: Flags, b: Flags)
    requires 0x44 <= High(op) <= 0x47 && !IsAddPc(op)
    ensures RespectsAt(AsInsn(w, op), s, a, b)
  {
    UnpackedRows();
    var e := HiReg(w, op, s);
    assert Execute(w, op, s, a) == e && Execute(w, op, s, b) == e;
  }

  lemma BranchRowRespects<M>(w: World<M>, op: Opcode, s: Cpu<M>, a: Flags, b: Flags)
    requires 0xD0 <= High(op) <= 0xE7 || 0xF0 <= High(op)
    ensures RespectsAt(AsInsn(w, op), s, a, b)
  {
    UnpackedRows();
    assert Execute(w, op, s, a) == Branch(w, op, s, a) && Execute(w, op, s, b) == Branch(w, op, s, b);
    assert Branch(w, op, s, a).writes == NONE;
    if AgreeOn(ALL, a, b) {
      assert a == b;
    }
  }

  lemma OtherRowRespects<M>(w: World<M>, op: Opcode, s: Cpu<M>, a: Flags, b: Flags)
    requires 0x48 <= High(op) <= 0xCF && !Undefined(op)
    ensures RespectsAt(AsInsn(w, op), s, a, b)
  {
    UnpackedRows();
    var e := Execute(w, op, s, a);
    assert e == Execute(w, op, s, b);
    assert e.writes == NONE && (e.next.Goto? ==> High(op) == 0xBD);
  }

  /** The table describes an encoding correctly, in every state, exactly when the encoding is not one
      of the misdescribed ones. */
  lemma TableCorrectIff<M(!new)>(w: World<M>, op: Opcode, someMemory: M)
    ensures Respects(AsInsn(w, op)) <==> !Misdescribed(op)
  {
    UnpackedRows();
    if Misdescribed(op) {
      assert !RespectsAt(AsInsn(w, op), Cpu(ZEROES, someMemory), NONE, NONE);
    } else {
      forall s, a, b
        ensures RespectsAt(AsInsn(w, op), s, a, b)
      {
        if High(op) < 0x18 {
          ShiftRowRespects(w, op, s, a, b);
        } else if High(op) < 0x40 {
          AddRowRespects(w, op, s, a, b);
        } else if High(op) <= 0x43 {
          if IsRegisterShift(op) {
            RegisterShiftRowRespects(w, op, s, a, b);
          } else {
            PlainAluRowRespects(w, op, s, a, b);
          }
        } else if High(op) <= 0x47 {
          HiRegRowRespects(w, op, s, a, b);
        } else if High(op) <= 0xCF {
          OtherRowRespects(w, op, s, a, b);
        } else {
          BranchRowRespects(w, op, s, a, b);
        }
      }
    }
  }

  function AsBlock<M>(w: World<M>, ops: seq<Opcode>): seq<Insn<Cpu<M>>> {
    seq(|ops|, i requires 0 <= i < |ops| => AsInsn(w, ops[i]))
  }

  /** Thumb blocks free of the misdescribed encodings run the same with only the kept flags. */
  lemma ThumbEliminationPreservesMeaning<M(!new)>(
      w: World<M>, ops: seq<Opcode>, count: nat, start: Config<Cpu<M>>, steps: nat)
    requires count <= |ops|
    requires forall i | 0 <= i < |ops| :: !Misdescribed(ops[i])
    ensures var block := AsBlock(w, ops);
            var full := Run(block, EveryFlag(|block|), start, steps);
            var reduced := Run(block, KeptFlags(Words(block), count), start, steps);
            && full.pc == reduced.pc && full.state == reduced.state
            && (!(0 <= full.pc < |block|) ==> full.flags == reduced.flags)
  {
    var block := AsBlock(w, ops);
    forall i | 0 <= i < |block|
      ensures Respects(block[i])
    {
      TableCorrectIff(w, ops[i], start.state.mem);
    }
    EliminationPreservesMeaning(block, count, start, steps);
  }

  // ----------------------------------------------------------------------------------------------
  // The misdescribed TST matters: CMP r0, r1; TST r2, r3; BCS
  // ----------------------------------------------------------------------------------------------

  const CMP_TST_BCS: seq<Opcode> := [0x4288, 0x421A, 0xD201]

  lemma CmpOfZeroes<M>(w: World<M>, m: M)
    ensures Execute(w, 0x4288, Cpu(ZEROES, m), NONE) ==
            Effect(Cpu(ZEROES[15 := 2], m), ALL, Flags(false, true, true, false), Fall)
  {
    var s := Cpu(ZEROES, m);
    assert High(0x4288) == 0x42 && AluSub(0x4288) == 2;
    assert Execute(w, 0x4288, s, NONE) == Alu(0x4288, s, NONE);
    assert Alu(0x4288, s, NONE) == Compare(s, SubWithFlags(0, 0, true));
    assert Skip(s) == Cpu(ZEROES[15 := 2], m);
  }

  lemma TstStep<M>(w: World<M>, s: Cpu<M>, f: Flags)
    ensures var e := Execute(w, 0x421A, s, f);
            e.next == Fall && e.writes == NZ && e.state == Skip(s)
  {
  }

  lemma BcsStep<M>(w: World<M>, s: Cpu<M>, f: Flags)
    ensures Execute(w, 0xD201, s, f).next == if f.c then Goto(w.place(Plus(s.r[15], 6))) else Fall
  {
  }

  /** The carry of the CMP is dropped although the BCS uses it. With r0 = r1, and carry clear before
      the block, the full run takes the branch and the reduced run falls through. */
  lemma TstLosesTheCarry<M>(w: World<M>, m: M)
    requires w.place(10) == 5
    ensures var block := AsBlock(w, CMP_TST_BCS);
            var start := Config(0, Cpu(ZEROES, m), NONE);
            && Run(block, EveryFlag(3), start, 3).pc == 5
            && Run(block, KeptFlags(Words(block), 2), start, 3).pc == 3
  {
    UnpackedRows();
    var block := AsBlock(w, CMP_TST_BCS);
    var words := Words(block);
    var keep := KeptFlags(words, 2);
    assert words[0] == words[1] == FlagWord(ALL, ALL, NONE);
    assert LiveAt(words, 2, 2) == ALL && LiveAt(words, 2, 1) == NONE;
    assert keep[0] == NONE && keep[1] == ALL;
    var c0 := Config(0, Cpu(ZEROES, m), NONE);
    CmpOfZeroes(w, m);
    var s1 := Cpu(ZEROES[15 := 2], m);
    var f1 := Config(1, s1, Flags(false, true, true, false));
    var g1 := Config(1, s1, NONE);
    var e := block[0].run(c0.state, NONE);
    assert e == Execute(w, 0x4288, Cpu(ZEROES, m), NONE);
    assert Commit(NONE, e, ALL) == f1.flags && Commit(NONE, e, NONE) == NONE;
    assert Step(block, EveryFlag(3), c0) == f1 && Step(block, keep, c0) == g1;
    assert Run(block, EveryFlag(3), c0, 0) == c0 && Run(block, keep, c0, 0) == c0;
    assert Run(block, EveryFlag(3), c0, 1) == f1 && Run(block, keep, c0, 1) == g1;
    TstStep(w, s1, f1.flags);
    TstStep(w, s1, g1.flags);
    var f2, g2 := Step(block, EveryFlag(3), f1), Step(block, keep, g1);
    assert f2.pc == 2 && f2.flags.c && f2.state.r[15] == 4;
    assert g2.pc == 2 && !g2.flags.c;
    assert Run(block, EveryFlag(3), c0, 2) == f2 && Run(block, keep, c0, 2) == g2;
    BcsStep(w, f2.state, f2.flags);
    BcsStep(w, g2.state, g2.flags);
  }
}
