/** Which instructions the interpreter does not go on from to the one after them, by its own cases, and how the
    scan's test for them compares: the blocks that are scanned end where control cannot go on. */
module ExitPoints {
  import opened Basics
  import opened Word32
  import opened BlockScan
  import opened DeadFlags
  import opened FlagArith
  import Interp = ThumbFlags

  // ----------------------------------------------------------------------------------------------
  // Thumb
  // ----------------------------------------------------------------------------------------------

  predicate IsConditionalBranch(op: Interp.Opcode) { 0xD0 <= Interp.High(op) <= 0xDD }

  /** Opcodes at which the scan does not expect the interpreter to leave: `ADD pc`, those that no case handles, and
      the two software interrupts that the translator carries out itself. */
  predicate ThumbUnexpected(op: Interp.Opcode) {
    || Interp.IsAddPc(op)
    || (Interp.Undefined(op) && Interp.High(op) != 0xDE)
    || (Interp.High(op) == 0xDF && IsDivSwi(op % 0x100))
  }

  /** The interpreter goes on to the next instruction after every opcode that is no exit point, and after a
      conditional branch that is not taken; after no other. The exceptions are the unexpected opcodes. */
  lemma ThumbLeavesIff<M>(w: Interp.World<M>, op: Interp.Opcode, s: Interp.Cpu<M>, f: Flags)
    ensures Interp.Execute(w, op, s, f).next.Goto? <==>
            if IsConditionalBranch(op) then ThumbTakes(Interp.High(op) - 0xD0, f)
            else ThumbExitPoint(op) || ThumbUnexpected(op)
  {
    hide ThumbTakes;
    var hi := Interp.High(op);
    if hi < 0x40 {
      assert Interp.Execute(w, op, s, f) == Interp.ShiftOrAdd(op, s);
    } else if hi <= 0x43 {
      if Interp.IsRegisterShift(op) {
        Interp.RegisterShiftWrites(op, s, f);
      } else {
        Interp.PlainAluWrites(op, s, f);
      }
    } else if hi <= 0x47 {
      assert Interp.Execute(w, op, s, f) == Interp.HiReg(w, op, s);
    } else if 0xD0 <= hi <= 0xE7 || 0xF0 <= hi {
      assert Interp.Execute(w, op, s, f) == Interp.Branch(w, op, s, f);
    }
  }

  // ----------------------------------------------------------------------------------------------
  // ARM
  // ----------------------------------------------------------------------------------------------

  /** What the interpreter selects its case by. */
  function Row(op: u32): int { 16 * Digit(op, 6) + Digit(op, 5) }

  /** The opcode is in the rows of multiplications and of the transfers that came with them. */
  predicate IsExtension(op: u32) { Row(op) < 0x20 && Digit(op, 1) >= 8 && Odd(Digit(op, 1)) }

  /** Bits 5 and 6. */
  function Kind(op: u32): int { Digit(op, 1) / 2 % 4 }

  /** The rows whose stores take half the words; the others multiply or swap unless bit 5 is set. */
  predicate OnlyStores(row: int) {
    row == 0x04 || row == 0x06 || row == 0x12 || row == 0x16 || row == 0x18 || row == 0x1A || row == 0x1C || row == 0x1E
  }

  predicate IsMultiply(op: u32) {
    IsExtension(op) &&
    (if Odd(Row(op)) then Kind(op) == 0 && (Row(op) <= 0x03 || 0x09 <= Row(op) <= 0x0F)
     else Row(op) < 0x10 && !OnlyStores(Row(op)) && !Odd(Kind(op)))
  }

  predicate IsSwap(op: u32) { IsExtension(op) && (Row(op) == 0x10 || Row(op) == 0x14) && !Odd(Kind(op)) }

  predicate IsHalfStore(op: u32) { IsExtension(op) && !Odd(Row(op)) && !IsMultiply(op) && !IsSwap(op) }

  predicate IsHalfLoad(op: u32) { IsExtension(op) && Odd(Row(op)) && Kind(op) != 0 }

  /** Rows of TST, TEQ, CMP and CMN, with a register or an immediate. */
  predicate IsTest(op: u32) {
    !IsExtension(op) &&
    ((0x10 <= Row(op) < 0x18 && Odd(Row(op))) || (0x30 <= Row(op) < 0x38 && Row(op) != 0x32 && Row(op) != 0x36))
  }

  predicate IsBranchExchange(op: u32) { !IsExtension(op) && Row(op) == 0x12 && Odd(Digit(op, 1)) }

  predicate IsStatusRow(op: u32) { Row(op) == 0x12 || Row(op) == 0x16 || Row(op) == 0x32 || Row(op) == 0x36 }

  predicate IsStatusWrite(op: u32) { !IsExtension(op) && !IsBranchExchange(op) && IsStatusRow(op) }

  /** Data processing with a result, and the two reads of a status register. */
  predicate HasResult(op: u32) {
    Row(op) < 0x40 && !IsExtension(op) && !IsTest(op) && !IsBranchExchange(op) && !IsStatusWrite(op)
  }

  predicate IsLoad(op: u32) { IsHalfLoad(op) || (0x40 <= Row(op) < 0x80 && Odd(Row(op))) }

  predicate IsStore(op: u32) { IsHalfStore(op) || (0x40 <= Row(op) < 0x80 && !Odd(Row(op))) }

  /** The base register is written back: always after a transfer that changes it afterwards, else if bit 21 says so. */
  predicate WritesBack(op: u32) {
    if Row(op) < 0x80 then (IsLoad(op) || IsStore(op)) && (!Odd(Row(op) / 0x10) || Odd(Row(op) / 2))
    else Row(op) < 0xA0 && Odd(Row(op) / 2)
  }

  /** The interpreter's case for the opcode does nothing, not even go on to the next instruction. */
  predicate HasNoCase(op: u32) {
    (IsExtension(op) && Odd(Row(op)) && Kind(op) == 0 && !IsMultiply(op)) || 0xC0 <= Row(op) < 0xF0
  }

  /** The register that the opcode names in bits 12 to 15 gets a result or is loaded, and it is r15; or the opcode is
      a block load of r15. */
  predicate LoadsPc(op: u32) {
    ((HasResult(op) || IsLoad(op) || IsSwap(op)) && Digit(op, 3) == 15)
    || (0x80 <= Row(op) < 0xA0 && Odd(Row(op)) && Digit(op, 3) >= 8)
  }

  /** The interpreter does not go on to the instruction after the opcode, if its condition holds: it gives r15 a
      value, or stays where it is. A status write may let an interrupt in, which returns to the next instruction. */
  predicate ArmLeaves(op: u32) {
    || LoadsPc(op)
    || (IsMultiply(op) && (Digit(op, 4) == 15 || (Row(op) >= 8 && Digit(op, 3) == 15)))
    || (WritesBack(op) && Digit(op, 4) == 15)
    || IsBranchExchange(op)
    || Row(op) >= 0xA0
    || HasNoCase(op)
  }

  /** Opcodes at which the scan does not expect the interpreter to leave: r15 as the result of a multiplication or as
      a base that is written back, bits in BX other than the manual's, rows without a case, and the two software
      interrupts that the translator carries out itself. */
  predicate ArmUnexpected(op: u32) {
    || IsMultiply(op)
    || (WritesBack(op) && Digit(op, 4) == 15 && !LoadsPc(op))
    || (IsBranchExchange(op) && !(Digit(op, 4) == Digit(op, 3) == Digit(op, 2) == 15))
    || (HasNoCase(op) && Row(op) < 0x20)
    || (Row(op) >= 0xF0 && IsDivSwi(op / 0x10000 % 0x100))
  }

  /** Bits 12 to 15 are set, below the block transfers and outside the rows of status writes; or all bits are that
      BX has. */
  predicate LooksLikeExit(op: u32) {
    || (Row(op) < 0x80 && Digit(op, 3) == 15 && !IsStatusRow(op))
    || LooksLikeBx(op)
  }

  predicate LooksLikeBx(op: u32) {
    Odd(Digit(op, 6)) && Odd(Digit(op, 5) / 2) && Digit(op, 4) == 15 && Digit(op, 3) == 15 && Digit(op, 2) == 15
    && Odd(Digit(op, 1))
  }

  lemma RowRange(op: u32)
    ensures 0 <= Digit(op, 1) < 16 && 0 <= Digit(op, 3) < 16 && 0 <= Digit(op, 5) < 16 && 0 <= Digit(op, 6) < 16
    ensures op % 0x10000000 < 0x8000000 <==> Row(op) < 0x80
    ensures 0xA000000 <= op % 0x10000000 <==> Row(op) >= 0xA0
    ensures 0xF000000 <= op % 0x10000000 <==> Row(op) >= 0xF0
  {
    RowIs(op);
    hide Row;
  }

  lemma RowIs(op: u32)
    ensures op % 0x10000000 / 0x100000 == Row(op)
  {
    var q := op / 0x100000;
    assert q / 16 == op / 0x1000000 && q % 0x100 == 16 * (q / 16 % 16) + q % 16;
    assert op % 0x10000000 == op - 0x10000000 * (q / 0x100);
  }

  /** Every opcode at which the interpreter leaves is an exit point, unless it is an unexpected one; and of those only
      the ones that look like others. */
  lemma ArmLeaversExit(op: u32)
    requires ArmLeaves(op)
    ensures ArmExitPoint(op) <==> !ArmUnexpected(op) || LooksLikeExit(op)
  {
    RowRange(op);
    SwiNumber(op);
    hide Digit;
  }

  /** An exit point at which the interpreter goes on all the same is a test, a store or a multiplication that only
      looks like one; it ends a block early. */
  lemma ArmFalseExits(op: u32)
    requires ArmExitPoint(op) && !ArmLeaves(op)
    ensures IsTest(op) || IsStore(op) || IsMultiply(op) || IsStatusWrite(op)
  {
    RowRange(op);
    hide Digit;
  }

  // ----------------------------------------------------------------------------------------------
  // Blocks end there
  // ----------------------------------------------------------------------------------------------

  /** Whatever the state, the interpreter does not go on to the instruction after this one, and the scan expects so. */
  predicate AlwaysLeaves(mode: Mode, op: u32) {
    if mode.Arm? then op / 0x10000000 == 0xE && ArmLeaves(op) && !ArmUnexpected(op)
    else
      && op < 0x10000 && !IsConditionalBranch(op) && !ThumbUnexpected(op) && Interp.High(op) != 0xDE
      && LeavesThumb(op)
  }

  /** The rows of the Thumb interpreter that jump: BX, MOV pc, POP {pc}, SWI, B and the second half of BL, besides the
      unexpected ones. */
  predicate LeavesThumb(op: Interp.Opcode) {
    var hi := Interp.High(op);
    || hi == 0x47 || (hi == 0x46 && Interp.HiRd(op) == 15) || hi == 0xBD || 0xDF <= hi <= 0xE7 || 0xF8 <= hi
  }

  lemma ThumbJumps<M>(w: Interp.World<M>, op: Interp.Opcode, s: Interp.Cpu<M>, f: Flags)
    requires AlwaysLeaves(Thumb, op)
    ensures Interp.Execute(w, op, s, f).next.Goto?
  {
    ThumbLeavesIff(w, op, s, f);
  }

  /** The scan ends a block at each of them, unless a branch from further up lands right after it. */
  lemma NothingFollows(s: Scanned, g: Guest, mode: Mode, start: u32, i: nat)
    requires g.decoder == DECODER && IsScanOf(s, g, mode, start) && i + 1 < |s.exits|
    requires AlwaysLeaves(mode, OpcodeAt(g, mode, PcAt(mode, start, i)))
    ensures exists k | 0 <= k < i :: s.exits[k] == Some(PcAt(mode, start, i + 1))
  {
    var op := OpcodeAt(g, mode, PcAt(mode, start, i));
    LeaverEnds(mode, op);
    hide AlwaysLeaves, IsExitPoint, IsUnconditional, PcAt, OpcodeAt;
    assert LastOpcode(g, mode, start, i + 1) == op && Ends(g, mode, op);
    assert Reached(s.exits, g, mode, start, i + 1);
  }

  lemma LeaverEnds(mode: Mode, op: u32)
    requires AlwaysLeaves(mode, op)
    ensures IsExitPoint(mode, op) && IsUnconditional(mode, op)
  {
    if mode.Arm? {
      hide ArmLeaves, ArmUnexpected, LooksLikeExit, ArmExitPoint;
      ArmLeaversExit(op);
    }
  }
}
