/** Processor modes: banked registers, and the ways in which the mode changes: status register writes,
    software interrupts, interrupts, and returning from them. */
module CpuModes {
  import opened DeadFlags
  import opened Word32

  datatype CpuMode = User | System | Irq | Fiq | Supervisor | Abort | Undefined | Invalid {
    /** The row of the mode in the tables of banked registers; user and system mode share one. */
    function Row(): (r: nat)
      ensures r < 7
    {
      match this
      case User => 0
      case System => 0
      case Irq => 1
      case Fiq => 2
      case Supervisor => 3
      case Abort => 4
      case Undefined => 5
      case Invalid => 6
    }
  }

  /** A status register: condition flags in bits 28 to 31, interrupt masks in bits 7 and 6, the Thumb bit 5, bit
      4, and the mode in bits 0 to 3. */
  type Psr = bv32

  /** The table of modes, indexed by the low four bits of a status register. */
  function ModeOf(p: Psr): CpuMode {
    var bits := p & 0xF;
    if bits == 0 then User
    else if bits == 1 then Fiq
    else if bits == 2 then Irq
    else if bits == 3 then Supervisor
    else if bits == 7 then Abort
    else if bits == 11 then Undefined
    else if bits == 15 then System
    else Invalid
  }

  /** Which bits a write changes, by the two field bits of the instruction (control and flags), first for user
      mode and then for privileged modes; and the same for a saved status register. */
  const CPSR_MASKS: seq<seq<Psr>> := [
    [0x00000000, 0x00000000],
    [0x00000020, 0x000000EF],
    [0xF0000000, 0xF0000000],
    [0xF0000020, 0xF00000EF]]

  const SPSR_MASKS: seq<Psr> := [0x00000000, 0x000000EF, 0xF0000000, 0xF00000EF]

  function CpsrMask(field: nat, privileged: bool): Psr
    requires field < 4
  {
    CPSR_MASKS[field][if privileged then 1 else 0]
  }

  /** A masked write. */
  function Masked(source: Psr, now: Psr, mask: Psr): Psr { (source & mask) | (now & !mask) }

  /** The status register with the condition flags, which the interpreter keeps apart, put back in. */
  function Collapsed(p: Psr, f: Flags): Psr {
    (if f.n then 0x8000_0000 else 0) | (if f.z then 0x4000_0000 else 0) |
    (if f.c then 0x2000_0000 else 0) | (if f.v then 0x1000_0000 else 0) | (p & 0xFF)
  }

  /** The condition flags taken out of a status register. */
  function Extracted(p: Psr): Flags {
    Flags(p >> 31 != 0, (p >> 30) & 1 != 0, (p >> 29) & 1 != 0, (p >> 28) & 1 != 0)
  }

  /** The status register after a software interrupt: ARM state, supervisor mode, interrupts off. */
  function SwiStatus(p: Psr): Psr { (p & !0x3F) | 0x13 | 0x80 }

  function WithThumb(p: Psr, on: bool): Psr { if on then p | 0x20 else p & !0x20 }

  const IRQ_STATUS: Psr := 0xD2

  /** Bit 4 is set, and bits 8 to 27 are clear. */
  predicate WellFormed(p: Psr) { p & 0x0FFF_FF10 == 0x10 }

  predicate IrqOff(p: Psr) { p & 0x80 != 0 }

  predicate FiqOff(p: Psr) { p & 0x40 != 0 }

  predicate InThumb(p: Psr) { p & 0x20 != 0 }

  predicate SameButThumb(p: Psr, q: Psr) { p & !0x20 == q & !0x20 }

  // ----------------------------------------------------------------------------------------------
  // Bits
  // ----------------------------------------------------------------------------------------------

  /** No mask lets the fixed bits through; in user mode none lets through the mode bits or the two bits that
      mask interrupts, and in a privileged mode the masks for the control field let through all of them. */
  lemma CpsrMasksSpare(field: nat, privileged: bool)
    requires field < 4
    ensures CpsrMask(field, privileged) & 0x0FFF_FF10 == 0
    ensures CpsrMask(field, privileged) & 0xCF == if privileged && field % 2 == 1 then 0xCF else 0
    ensures CpsrMask(field, privileged) & 0x20 == if field % 2 == 1 then 0x20 else 0
    ensures CpsrMask(field, privileged) & 0xF0000000 == if field >= 2 then 0xF0000000 else 0
  {
    assert CPSR_MASKS[0] == [0x00000000, 0x00000000] && CPSR_MASKS[1] == [0x00000020, 0x000000EF];
    assert CPSR_MASKS[2] == [0xF0000000, 0xF0000000] && CPSR_MASKS[3] == [0xF0000020, 0xF00000EF];
  }

  /** The masks for a saved status register are those of a privileged mode. */
  lemma SpsrMasksSpare(field: nat)
    requires field < 4
    ensures SPSR_MASKS[field] & 0x0FFF_FF10 == 0
    ensures SPSR_MASKS[field] == CpsrMask(field, true)
  {
    assert CPSR_MASKS[0] == [0x00000000, 0x00000000] && CPSR_MASKS[1] == [0x00000020, 0x000000EF];
    assert CPSR_MASKS[2] == [0xF0000000, 0xF0000000] && CPSR_MASKS[3] == [0xF0000020, 0xF00000EF];
  }

  /** A write through a mask that spares the fixed bits keeps them. */
  lemma MaskedWellFormed(source: Psr, now: Psr, mask: Psr)
    requires WellFormed(now) && mask & 0x0FFF_FF10 == 0
    ensures WellFormed(Masked(source, now, mask))
  {
  }

  lemma MaskedMode(source: Psr, now: Psr, mask: Psr)
    requires mask & 0xF == 0
    ensures ModeOf(Masked(source, now, mask)) == ModeOf(now)
  {
    assert Masked(source, now, mask) & 0xF == now & 0xF;
  }

  lemma LowBits(mask: Psr)
    requires mask & 0xFF == 0
    ensures mask & 0xF == 0
  {
  }

  /** What a mask does not let through stays. */
  lemma MaskedSpares(source: Psr, now: Psr, mask: Psr)
    requires mask & 0xCF == 0
    ensures Masked(source, now, mask) & 0xCF == now & 0xCF
  {
  }

  lemma SameControl(p: Psr, q: Psr)
    requires p & 0xCF == q & 0xCF
    ensures ModeOf(p) == ModeOf(q) && IrqOff(p) == IrqOff(q)
  {
    assert p & 0xF == (p & 0xCF) & 0xF && q & 0xF == (q & 0xCF) & 0xF;
    assert p & 0x80 == (p & 0xCF) & 0x80 && q & 0x80 == (q & 0xCF) & 0x80;
  }

  lemma CollapsedBits(p: Psr, f: Flags)
    ensures p & 0x10 != 0 ==> WellFormed(Collapsed(p, f))
    ensures Collapsed(p, f) & 0xFF == p & 0xFF
  {
  }

  lemma CollapsedMode(p: Psr, f: Flags)
    ensures ModeOf(Collapsed(p, f)) == ModeOf(p) && IrqOff(Collapsed(p, f)) == IrqOff(p)
  {
    CollapsedBits(p, f);
    assert Collapsed(p, f) & 0xF == (Collapsed(p, f) & 0xFF) & 0xF;
    assert p & 0xF == (p & 0xFF) & 0xF;
    assert Collapsed(p, f) & 0x80 == (Collapsed(p, f) & 0xFF) & 0x80;
    assert p & 0x80 == (p & 0xFF) & 0x80;
  }

  /** Taking the flags out gives back what was put in. */
  lemma ExtractedBack(p: Psr, f: Flags)
    ensures Extracted(Collapsed(p, f)) == f
  {
  }

  /** A mode's number in bits 0 to 4 of a status register, by section A2.5 of ARM DDI 0100. */
  function Number(m: CpuMode): Psr
    requires !m.Invalid?
  {
    match m
    case User => 16
    case Fiq => 17
    case Irq => 18
    case Supervisor => 19
    case Abort => 23
    case Undefined => 27
    case System => 31
  }

  /** A well-formed status register names the mode that has its number, and the invalid mode if none has. */
  lemma ModesAreNumbered(p: Psr, m: CpuMode)
    requires WellFormed(p)
    ensures !m.Invalid? ==> (ModeOf(p) == m <==> p & 0x1F == Number(m))
    ensures ModeOf(p).Invalid? <==> forall n: CpuMode | !n.Invalid? :: p & 0x1F != Number(n)
  {
    LowFive(p);
    if ModeOf(p).Invalid? {
      forall n: CpuMode | !n.Invalid?
        ensures p & 0x1F != Number(n)
      {
      }
    } else {
      assert p & 0x1F == Number(ModeOf(p));
    }
  }

  lemma LowFive(p: Psr)
    requires WellFormed(p)
    ensures p & 0x1F == (p & 0xF) | 0x10
    ensures (p & 0xF) | 0x10 == (p & 0xF) + 0x10
  {
  }

  /** The flags are the top four bits: N, Z, C and V, downwards. */
  lemma FlagsAreTopBits(p: Psr)
    ensures var f := Extracted(p);
            p >> 28 == (if f.n then 8 else 0) + (if f.z then 4 else 0) + (if f.c then 2 else 0) + (if f.v then 1 else 0)
  {
  }

  /** A software interrupt masks interrupts, and leaves the mask of fast ones and the condition flags. */
  lemma SwiBits(p: Psr)
    requires WellFormed(p)
    ensures WellFormed(SwiStatus(p)) && ModeOf(SwiStatus(p)) == Supervisor
    ensures IrqOff(SwiStatus(p)) && !InThumb(SwiStatus(p)) && FiqOff(SwiStatus(p)) == FiqOff(p)
    ensures Extracted(SwiStatus(p)) == Extracted(p)
  {
    assert SwiStatus(p) & 0xF == 3;
  }

  lemma IrqBits()
    ensures WellFormed(IRQ_STATUS) && ModeOf(IRQ_STATUS) == Irq
    ensures IrqOff(IRQ_STATUS) && FiqOff(IRQ_STATUS) && !InThumb(IRQ_STATUS)
  {
  }

  lemma ThumbBit(p: Psr, on: bool)
    ensures WellFormed(p) ==> WellFormed(WithThumb(p, on))
    ensures ModeOf(WithThumb(p, on)) == ModeOf(p)
  {
    assert (p | 0x20) & 0xF == p & 0xF && (p & !0x20) & 0xF == p & 0xF;
  }

  /** Only that bit changes. */
  lemma ThumbBitOnly(p: Psr, on: bool)
    ensures InThumb(WithThumb(p, on)) == on && SameButThumb(WithThumb(p, on), p)
  {
  }

  const SP := 13
  const LR := 14
  const PC := 15

  /** `flags` are the condition flags as the interpreter keeps them while it runs. */
  datatype State = State(reg: seq<u32>, cpsr: Psr, flags: Flags, mode: CpuMode, bank: seq<u32>, spsr: seq<Psr>) {
    ghost predicate Fits() { |reg| == 16 && |bank| == 49 && |spsr| == 6 }
  }

  /** A mode's stack pointer (13) or link register (14): in the registers if it is the current mode or
      shares its bank, in the bank otherwise. */
  function View(s: State, m: CpuMode, r: nat): u32
    requires s.Fits() && (r == SP || r == LR)
  {
    if m.Row() == s.mode.Row() then s.reg[r] else s.bank[m.Row() * 7 + r - 8]
  }

  // ----------------------------------------------------------------------------------------------
  // Changing mode
  // ----------------------------------------------------------------------------------------------

  /** The bank after the current mode's registers are put away, all of r8 to r14 if fast interrupt mode is
      entered, the last two otherwise. */
  function Retired(s: State, m: CpuMode): (bank: seq<u32>)
    requires s.Fits()
    ensures |bank| == 49
  {
    var k := s.mode.Row() * 7;
    if m.Fiq? then s.bank[..k] + s.reg[8..15] + s.bank[k + 7..]
    else s.bank[k + 5 := s.reg[SP]][k + 6 := s.reg[LR]]
  }

  function SetMode(s: State, m: CpuMode): (r: State)
    requires s.Fits()
    ensures r.Fits() && r.mode == m
    ensures r.cpsr == s.cpsr && r.flags == s.flags && r.spsr == s.spsr && r.reg[PC] == s.reg[PC]
  {
    if s.mode == m then s
    else
      var bank, k := Retired(s, m), m.Row() * 7;
      var reg := if s.mode.Fiq? then s.reg[..8] + bank[k..k + 7] + s.reg[15..]
                 else s.reg[SP := bank[k + 5]][LR := bank[k + 6]];
      s.(reg := reg, bank := bank, mode := m)
  }

  lemma RetiredAt(s: State, m: CpuMode, row: nat)
    requires s.Fits() && row < 7
    ensures Retired(s, m)[row * 7 + 5] == if row == s.mode.Row() then s.reg[SP] else s.bank[row * 7 + 5]
    ensures Retired(s, m)[row * 7 + 6] == if row == s.mode.Row() then s.reg[LR] else s.bank[row * 7 + 6]
  {
    var k := s.mode.Row();
    if m.Fiq? {
      var bank := s.bank[..k * 7] + s.reg[8..15] + s.bank[k * 7 + 7..];
      if row == k {
        assert bank[k * 7..k * 7 + 7] == s.reg[8..15];
      } else if row < k {
        assert bank[..k * 7] == s.bank[..k * 7];
      } else {
        assert bank[k * 7 + 7..] == s.bank[k * 7 + 7..];
        assert bank[row * 7 + 5] == bank[k * 7 + 7..][row * 7 + 5 - (k * 7 + 7)];
      }
    }
  }

  lemma LoadedAt(s: State, m: CpuMode)
    requires s.Fits()
    ensures s.mode == m ==> SetMode(s, m) == s
    ensures var r, bank := SetMode(s, m), Retired(s, m);
            s.mode != m ==>
            && r.bank == bank
            && r.reg[SP] == bank[m.Row() * 7 + 5] && r.reg[LR] == bank[m.Row() * 7 + 6]
            && r.reg[..8] == s.reg[..8] && (!s.mode.Fiq? ==> r.reg[..13] == s.reg[..13])
  {
    hide Retired, CpuMode.Row;
    var k, bank := m.Row() * 7, Retired(s, m);
    if s.mode.Fiq? {
      var reg := s.reg[..8] + bank[k..k + 7] + s.reg[15..];
      assert reg[8..15] == bank[k..k + 7] && reg[..8] == s.reg[..8];
      assert reg[SP] == reg[8..15][5] && reg[LR] == reg[8..15][6];
      assert reg[SP] == bank[k + 5] && reg[LR] == bank[k + 6];
    } else {
      var reg := s.reg[SP := bank[k + 5]][LR := bank[k + 6]];
      assert reg[..13] == s.reg[..13] && reg[..8] == s.reg[..8];
    }
  }

  /** Whatever the two modes, every mode still sees its own stack pointer and link register. Outside fast
      interrupt mode no other register changes. */
  lemma SetModeKeepsViews(s: State, m: CpuMode, k: CpuMode)
    requires s.Fits()
    ensures View(SetMode(s, m), k, SP) == View(s, k, SP)
    ensures View(SetMode(s, m), k, LR) == View(s, k, LR)
    ensures SetMode(s, m).reg[..8] == s.reg[..8]
    ensures !s.mode.Fiq? ==> SetMode(s, m).reg[..13] == s.reg[..13]
  {
    hide SetMode, Retired, CpuMode.Row;
    LoadedAt(s, m);
    if s.mode != m {
      RetiredAt(s, m, m.Row());
      RetiredAt(s, m, k.Row());
    }
  }

  // ----------------------------------------------------------------------------------------------
  // The operations
  // ----------------------------------------------------------------------------------------------

  function Collapse(s: State): (r: State)
    requires s.Fits()
    ensures r.Fits()
  {
    s.(cpsr := Collapsed(s.cpsr, s.flags))
  }

  function Extract(s: State): (r: State)
    requires s.Fits()
    ensures r.Fits()
  {
    s.(flags := Extracted(s.cpsr))
  }

  /** Enters the interrupt handler. */
  function EnterIrq(s: State): (r: State)
    requires s.Fits()
    ensures r.Fits()
  {
    SetMode(s.(bank := s.bank[13 := Plus(s.reg[PC], 4)], spsr := s.spsr[1 := s.cpsr],
               cpsr := IRQ_STATUS, reg := s.reg[PC := 0x18]), Irq)
  }

  /** Takes an interrupt that is pending, unless it is masked. */
  function CheckIrq(s: State, pending: bool): (r: State)
    requires s.Fits()
    ensures r.Fits()
  {
    if pending && !IrqOff(s.cpsr) then EnterIrq(s) else s
  }

  /** MSR to the current status register. */
  function WriteCpsr(s: State, source: Psr, field: nat, pending: bool): (r: State)
    requires s.Fits() && field < 4
    ensures r.Fits()
  {
    var mask := CpsrMask(field, !s.mode.User?);
    var t := Extract(s.(cpsr := Masked(source, s.cpsr, mask)));
    if mask & 0xFF != 0 then CheckIrq(SetMode(t, ModeOf(t.cpsr)), pending) else t
  }

  /** MSR to the saved status register; the invalid mode has none. */
  function WriteSpsr(s: State, source: Psr, field: nat): (r: State)
    requires s.Fits() && !s.mode.Invalid? && field < 4
    ensures r.Fits()
  {
    var k := s.mode.Row();
    s.(spsr := s.spsr[k := Masked(source, s.spsr[k], SPSR_MASKS[field])])
  }

  /** A software interrupt, by an instruction of `width` bytes. */
  function Swi(s: State, width: nat): (r: State)
    requires s.Fits()
    ensures r.Fits()
  {
    SetMode(s.(bank := s.bank[27 := Plus(s.reg[PC], width)], spsr := s.spsr[3 := s.cpsr],
               cpsr := SwiStatus(s.cpsr), reg := s.reg[PC := 8]), Supervisor)
  }

  /** A data processing instruction with the S bit that writes `target` to the program counter. */
  function Return(s: State, target: u32, pending: bool): (r: State)
    requires s.Fits() && !s.mode.Invalid?
    ensures r.Fits()
  {
    var t := s.(reg := s.reg[PC := target]);
    if s.mode.User? || s.mode.System? then t
    else
      var cpsr := s.spsr[s.mode.Row()];
      CheckIrq(SetMode(Extract(t.(cpsr := cpsr)), ModeOf(cpsr)), pending)
  }

  /** BX, in either instruction set. */
  function BranchExchange(s: State, target: u32): (r: State)
    requires s.Fits()
    ensures r.Fits()
  {
    s.(reg := s.reg[PC := if Odd(target) then target - 1 else target], cpsr := WithThumb(s.cpsr, Odd(target)))
  }

  // ----------------------------------------------------------------------------------------------
  // What every sequence of operations keeps
  // ----------------------------------------------------------------------------------------------

  /** `Compute` stands for any instruction that leaves the mode alone: it may set the flags, and registers. */
  datatype Op =
    | Compute(flags: Flags, reg: seq<u32>)
    | MsrCpsr(source: Psr, field: nat, pending: bool)
    | MsrSpsr(source: Psr, field: nat)
    | SoftwareInterrupt(width: nat)
    | Interrupt(pending: bool)
    | ExceptionReturn(target: u32, pending: bool)
    | Bx(target: u32)

  predicate Allowed(s: State, op: Op) {
    && (op.MsrSpsr? || op.ExceptionReturn? ==> !s.mode.Invalid?)
    && (op.MsrCpsr? || op.MsrSpsr? ==> op.field < 4)
    && (op.Compute? ==> |op.reg| == 16)
  }

  /** One step: before every instruction, and before an interrupt is looked for, the flags are put back into the
      status register. */
  function Apply(s: State, op: Op): (r: State)
    requires s.Fits() && Allowed(s, op)
    ensures r.Fits()
  {
    var c := Collapse(s);
    match op
    case Compute(flags, reg) => c.(flags := flags, reg := reg)
    case MsrCpsr(source, field, pending) => WriteCpsr(c, source, field, pending)
    case MsrSpsr(source, field) => WriteSpsr(c, source, field)
    case SoftwareInterrupt(width) => Swi(c, width)
    case Interrupt(pending) => Extract(CheckIrq(c, pending))
    case ExceptionReturn(target, pending) => Return(c, target, pending)
    case Bx(target) => BranchExchange(c, target)
  }

  /** The status registers are well formed, and the mode is the one the status register names. */
  ghost predicate Good(s: State) {
    && s.Fits() && WellFormed(s.cpsr) && s.mode == ModeOf(s.cpsr)
    && forall i | 0 <= i < 6 :: WellFormed(s.spsr[i])
  }

  lemma CollapseKeepsGood(s: State)
    requires Good(s)
    ensures Good(Collapse(s)) && Extracted(Collapse(s).cpsr) == s.flags
  {
    hide Collapsed, Extracted, ModeOf;
    CollapsedBits(s.cpsr, s.flags);
    FixedBit(s.cpsr);
    CollapsedMode(s.cpsr, s.flags);
    ExtractedBack(s.cpsr, s.flags);
  }

  lemma FixedBit(p: Psr)
    requires WellFormed(p)
    ensures p & 0x10 != 0
  {
  }

  lemma CheckIrqKeepsGood(s: State, pending: bool)
    requires Good(s)
    ensures Good(CheckIrq(s, pending))
  {
    hide SetMode, WellFormed, ModeOf, IrqOff;
    IrqBits();
  }

  lemma WriteCpsrKeepsGood(s: State, source: Psr, field: nat, pending: bool)
    requires Good(s) && field < 4
    ensures Good(WriteCpsr(s, source, field, pending))
  {
    hide SetMode, WellFormed, ModeOf, IrqOff, Masked, Extracted, CpsrMask;
    var mask := CpsrMask(field, !s.mode.User?);
    CpsrMasksSpare(field, !s.mode.User?);
    MaskedWellFormed(source, s.cpsr, mask);
    var t := Extract(s.(cpsr := Masked(source, s.cpsr, mask)));
    if mask & 0xFF != 0 {
      CheckIrqKeepsGood(SetMode(t, ModeOf(t.cpsr)), pending);
    } else {
      LowBits(mask);
      MaskedMode(source, s.cpsr, mask);
    }
  }

  /** In user mode MSR changes neither the mode nor what masks interrupts, whatever it writes: the CPU leaves
      user mode only for an interrupt that was not masked before. */
  lemma UserKeepsControl(s: State, source: Psr, field: nat, pending: bool)
    requires Good(s) && s.mode.User? && field < 4
    ensures var now := WriteCpsr(s, source, field, false);
            && now.mode.User? && now.cpsr & 0xCF == s.cpsr & 0xCF
            && now.reg == s.reg && now.bank == s.bank && now.spsr == s.spsr
            && (!pending || IrqOff(s.cpsr) ==> WriteCpsr(s, source, field, pending) == now)
  {
    hide WellFormed, ModeOf, IrqOff, Masked, Extracted, CpsrMask;
    var mask := CpsrMask(field, false);
    CpsrMasksSpare(field, false);
    MaskedSpares(source, s.cpsr, mask);
    SameControl(Masked(source, s.cpsr, mask), s.cpsr);
  }

  lemma WriteSpsrKeepsGood(s: State, source: Psr, field: nat)
    requires Good(s) && field < 4 && !s.mode.Invalid?
    ensures Good(WriteSpsr(s, source, field))
  {
    hide WellFormed, ModeOf, Masked;
    SpsrMasksSpare(field);
    MaskedWellFormed(source, s.spsr[s.mode.Row()], SPSR_MASKS[field]);
  }

  lemma SwiKeepsGood(s: State, width: nat)
    requires Good(s)
    ensures Good(Swi(s, width))
  {
    hide SetMode, WellFormed, ModeOf, SwiStatus;
    SwiBits(s.cpsr);
  }

  lemma ReturnKeepsGood(s: State, target: u32, pending: bool)
    requires Good(s) && !s.mode.Invalid?
    ensures Good(Return(s, target, pending))
  {
    hide SetMode, WellFormed, ModeOf, Extracted, CheckIrq;
    if !s.mode.User? && !s.mode.System? {
      var cpsr := s.spsr[s.mode.Row()];
      CheckIrqKeepsGood(SetMode(Extract(s.(reg := s.reg[PC := target], cpsr := cpsr)), ModeOf(cpsr)), pending);
    }
  }

  lemma BxKeepsGood(s: State, target: u32)
    requires Good(s)
    ensures Good(BranchExchange(s, target))
  {
    hide WellFormed, ModeOf, WithThumb;
    ThumbBit(s.cpsr, Odd(target));
  }

  lemma ApplyKeepsGood(s: State, op: Op)
    requires Good(s) && Allowed(s, op)
    ensures Good(Apply(s, op))
  {
    hide WellFormed, ModeOf, Collapsed, Extracted, WriteCpsr, WriteSpsr, Swi, CheckIrq, Return, BranchExchange;
    CollapseKeepsGood(s);
    var c := Collapse(s);
    match op
    case Compute(_, _) =>
    case MsrCpsr(source, field, pending) => WriteCpsrKeepsGood(c, source, field, pending);
    case MsrSpsr(source, field) => WriteSpsrKeepsGood(c, source, field);
    case SoftwareInterrupt(width) => SwiKeepsGood(c, width);
    case Interrupt(pending) => CheckIrqKeepsGood(c, pending);
    case ExceptionReturn(target, pending) => ReturnKeepsGood(c, target, pending);
    case Bx(target) => BxKeepsGood(c, target);
  }

  /** A sequence of operations that runs from `s` to `t`. */
  ghost predicate Runs(s: State, ops: seq<Op>, t: State)
    requires s.Fits()
    decreases ops
  {
    if ops == [] then s == t
    else Allowed(s, ops[0]) && Runs(Apply(s, ops[0]), ops[1..], t)
  }

  lemma {:induction false} GoodForever(s: State, ops: seq<Op>, t: State)
    requires Good(s) && Runs(s, ops, t)
    ensures Good(t)
    decreases ops
  {
    if ops != [] {
      hide Apply, Good;
      assert s.Fits() by { assert Good(s); }
      ApplyKeepsGood(s, ops[0]);
      GoodForever(Apply(s, ops[0]), ops[1..], t);
    }
  }

  // ----------------------------------------------------------------------------------------------
  // Interrupts
  // ----------------------------------------------------------------------------------------------

  /** Entering the handler from another mode: it starts at its vector, in ARM state and with interrupts masked, and
      sees where to return to; all other views stay. */
  lemma IrqEntered(s: State, k: CpuMode)
    requires s.Fits() && !s.mode.Irq?
    ensures var t := EnterIrq(s);
            && t.mode == Irq && t.reg[LR] == Plus(s.reg[PC], 4) && t.spsr == s.spsr[1 := s.cpsr]
            && t.reg[PC] == 0x18 && ModeOf(t.cpsr) == Irq && IrqOff(t.cpsr) && !InThumb(t.cpsr)
            && View(t, k, SP) == View(s, k, SP)
            && (!k.Irq? ==> View(t, k, LR) == View(s, k, LR))
            && (!s.mode.Fiq? ==> t.reg[..13] == s.reg[..13])
  {
    hide SetMode, ModeOf, IrqOff, InThumb;
    IrqBits();
    var entered := s.(bank := s.bank[13 := Plus(s.reg[PC], 4)], spsr := s.spsr[1 := s.cpsr],
                      cpsr := IRQ_STATUS, reg := s.reg[PC := 0x18]);
    SetModeKeepsViews(entered, Irq, k);
    SetModeKeepsViews(entered, Irq, Irq);
    assert View(entered, Irq, LR) == Plus(s.reg[PC], 4);
    assert entered.reg[..13] == s.reg[..13];
  }

  /** The same for a software interrupt, by an instruction of `width` bytes. */
  lemma SwiEntered(s: State, width: nat, k: CpuMode)
    requires Good(s) && !s.mode.Supervisor?
    ensures var t := Swi(s, width);
            && t.mode == Supervisor && t.reg[LR] == Plus(s.reg[PC], width) && t.spsr == s.spsr[3 := s.cpsr]
            && t.reg[PC] == 8 && IrqOff(t.cpsr) && !InThumb(t.cpsr) && FiqOff(t.cpsr) == FiqOff(s.cpsr)
            && View(t, k, SP) == View(s, k, SP)
            && (!k.Supervisor? ==> View(t, k, LR) == View(s, k, LR))
            && (!s.mode.Fiq? ==> t.reg[..13] == s.reg[..13])
  {
    hide SetMode, SwiStatus, ModeOf, IrqOff, InThumb, FiqOff, WellFormed, Extracted;
    SwiBits(s.cpsr);
    var entered := s.(bank := s.bank[27 := Plus(s.reg[PC], width)], spsr := s.spsr[3 := s.cpsr],
                      cpsr := SwiStatus(s.cpsr), reg := s.reg[PC := 8]);
    SetModeKeepsViews(entered, Supervisor, k);
    SetModeKeepsViews(entered, Supervisor, Supervisor);
    assert View(entered, Supervisor, LR) == Plus(s.reg[PC], width);
    assert entered.reg[..13] == s.reg[..13];
  }

  /** BX goes to the address without its lowest bit, which says whether the CPU is in Thumb state from then on;
      nothing else changes. */
  lemma BxSwitches(s: State, target: u32)
    requires s.Fits()
    ensures var t := BranchExchange(s, target);
            && t.reg[PC] == target / 2 * 2 && (InThumb(t.cpsr) <==> target % 2 == 1)
            && SameButThumb(t.cpsr, s.cpsr) && ModeOf(t.cpsr) == ModeOf(s.cpsr)
            && t == s.(reg := s.reg[PC := t.reg[PC]], cpsr := t.cpsr)
  {
    hide ModeOf, InThumb, WithThumb, SameButThumb;
    ThumbBit(s.cpsr, Odd(target));
    ThumbBitOnly(s.cpsr, Odd(target));
    EvenPart(target);
  }

  /** Where translated code goes for BX, and whether in Thumb state: an address of ARM code is rounded up to a word. */
  function DualTarget(target: u32): (u32, bool) {
    if Odd(target) then (target - 1, true) else (AlignDown(Plus(target, 2), 4), false)
  }

  /** It takes the state that the interpreter takes, and goes to the same address if and only if that is a multiple
      of the width of the instructions there. */
  lemma DualAgreesIff(s: State, target: u32)
    requires s.Fits()
    ensures var t, (address, thumb) := BranchExchange(s, target), DualTarget(target);
            && InThumb(t.cpsr) == thumb
            && (address == t.reg[PC] <==> t.reg[PC] % (if thumb then 2 else 4) == 0)
  {
    hide InThumb, WithThumb;
    ThumbBitOnly(s.cpsr, Odd(target));
    if !Odd(target) {
      WordAbove(target);
    }
  }

  lemma WordAbove(x: u32)
    requires !Odd(x)
    ensures AlignDown(Plus(x, 2), 4) == x <==> x % 4 == 0
  {
    if x + 2 < WORD {
      assert Plus(x, 2) == x + 2;
    }
  }

  lemma EvenPart(x: u32)
    ensures (if Odd(x) then x - 1 else x) == x / 2 * 2
  {
  }

  /** The handler finds its return address in its link register exactly if the interrupt was taken in another
      mode, or if by chance the address was there already: in interrupt mode it goes to the bank of the very
      mode that is current. */
  lemma NestedIrqLosesReturn(s: State)
    requires s.Fits()
    ensures EnterIrq(s).reg[LR] == Plus(s.reg[PC], 4) <==> !s.mode.Irq? || s.reg[LR] == Plus(s.reg[PC], 4)
    ensures s.mode.Irq? ==> EnterIrq(s).reg[LR] == s.reg[LR] && EnterIrq(s).bank[13] == Plus(s.reg[PC], 4)
  {
    if !s.mode.Irq? {
      IrqEntered(s, Irq);
    }
  }

  /** Whatever a handler does in between, if it ends in interrupt mode with its link register, its saved
      status and the registers of the interrupted mode as it found them, SUBS pc, lr, #4 resumes the
      interrupted program: program counter, status, mode, stack pointer and link register are back. */
  lemma InterruptIsTransparent(s: State, h: State)
    requires Good(s) && h.Fits() && !s.mode.Irq?
    requires h.mode == Irq && h.reg[LR] == EnterIrq(s).reg[LR] && h.spsr[1] == EnterIrq(s).spsr[1]
    requires View(h, s.mode, SP) == View(EnterIrq(s), s.mode, SP)
    requires View(h, s.mode, LR) == View(EnterIrq(s), s.mode, LR)
    ensures var r := Return(h, Plus(h.reg[LR], -4), false);
            && r.reg[PC] == s.reg[PC] && r.cpsr == s.cpsr && r.flags == Extracted(s.cpsr) && r.mode == s.mode
            && r.reg[SP] == s.reg[SP] && r.reg[LR] == s.reg[LR]
            && (h.reg[..13] == s.reg[..13] ==> r.reg == s.reg)
  {
    hide SetMode;
    IrqEntered(s, s.mode);
    var target := Plus(h.reg[LR], -4);
    assert target == s.reg[PC];
    var back := Extract(h.(reg := h.reg[PC := target], cpsr := s.cpsr));
    SetModeKeepsViews(back, s.mode, s.mode);
    assert Return(h, target, false) == SetMode(back, s.mode);
    assert View(back, s.mode, SP) == View(h, s.mode, SP);
    var r := SetMode(back, s.mode);
    if h.reg[..13] == s.reg[..13] {
      assert back.reg[..13] == h.reg[..13];
      assert r.reg == r.reg[..13] + [r.reg[SP], r.reg[LR], r.reg[PC]];
      assert s.reg == s.reg[..13] + [s.reg[SP], s.reg[LR], s.reg[PC]];
    }
  }

  /** The same for a software interrupt from any mode but supervisor mode and MOVS pc, lr: the program goes
      on after the instruction. */
  lemma SwiIsTransparent(s: State, h: State, width: nat)
    requires Good(s) && h.Fits() && !s.mode.Supervisor?
    requires h.mode == Supervisor && h.reg[LR] == Swi(s, width).reg[LR] && h.spsr[3] == s.cpsr
    requires View(h, s.mode, SP) == View(Swi(s, width), s.mode, SP)
    requires View(h, s.mode, LR) == View(Swi(s, width), s.mode, LR)
    ensures var r := Return(h, h.reg[LR], false);
            && r.reg[PC] == Plus(s.reg[PC], width) && r.cpsr == s.cpsr && r.flags == Extracted(s.cpsr)
            && r.mode == s.mode
            && r.reg[SP] == s.reg[SP] && r.reg[LR] == s.reg[LR]
  {
    hide SetMode;
    var entered := s.(bank := s.bank[27 := Plus(s.reg[PC], width)], spsr := s.spsr[3 := s.cpsr],
                      cpsr := SwiStatus(s.cpsr),
                      reg := s.reg[PC := 8]);
    SetModeKeepsViews(entered, Supervisor, s.mode);
    SetModeKeepsViews(entered, Supervisor, Supervisor);
    assert View(entered, Supervisor, LR) == Plus(s.reg[PC], width);
    var back := Extract(h.(reg := h.reg[PC := h.reg[LR]], cpsr := s.cpsr));
    SetModeKeepsViews(back, s.mode, s.mode);
    assert Return(h, h.reg[LR], false) == SetMode(back, s.mode);
    assert View(back, s.mode, SP) == View(h, s.mode, SP) && View(back, s.mode, LR) == View(h, s.mode, LR);
  }

  // ----------------------------------------------------------------------------------------------
  // The processor
  // ----------------------------------------------------------------------------------------------

  class Cpu {
    const reg: array<u32>
    const bank: array<u32>
    const spsr: array<Psr>
    var cpsr: Psr
    var flags: Flags
    var mode: CpuMode

    ghost predicate Sizes()
    {
      && reg.Length == 16 && bank.Length == 49 && spsr.Length == 6
      && reg != bank
    }

    ghost function Now(): (s: State)
      requires Sizes()
      reads this, reg, bank, spsr
      ensures s.Fits()
    {
      State(reg[..], cpsr, flags, mode, bank[..], spsr[..])
    }

    /** After a reset, with the stack pointers set; the boot ROM starts in supervisor mode, a game in
        system mode. */
    constructor (boot: bool)
      ensures Sizes() && Good(Now()) && fresh(reg) && fresh(bank) && fresh(spsr)
      ensures mode == if boot then Supervisor else System
      ensures reg[PC] == (if boot then 0 else 0x08000000) && reg[SP] == 0x03007F00 && !InThumb(cpsr)
      ensures IrqOff(cpsr) == boot && FiqOff(cpsr) == boot
      ensures View(Now(), Irq, SP) == View(Now(), Fiq, SP) == 0x03007FA0 && View(Now(), User, SP) == 0x03007F00
      ensures !boot ==> View(Now(), Supervisor, SP) == 0x03007FE0
    {
      reg := new u32[16](i => if i == SP then 0x03007F00 else if i == PC && !boot then 0x08000000 else 0);
      bank := new u32[49](i => if i == 5 then 0x03007F00 else if i == 12 || i == 19 then 0x03007FA0
                               else if i == 26 then 0x03007FE0 else 0);
      spsr := new Psr[6](_ => 0x10);
      cpsr := if boot then 0x13 | 0xC0 else 0x1F;
      flags := NONE;
      mode := if boot then Supervisor else System;
    }

    method SetCpuMode(newMode: CpuMode)
      requires Sizes()
      modifies `mode, reg, bank
      ensures Now() == SetMode(old(Now()), newMode)
    {
      if mode == newMode {
        return;
      }
      Retire(newMode);
      Load(newMode);
      mode := newMode;
    }

    /** Puts away the registers of the current mode. */
    method Retire(newMode: CpuMode)
      requires Sizes()
      modifies bank
      ensures bank[..] == Retired(old(Now()), newMode)
    {
      hide CpuMode.Row;
      var from := mode.Row() * 7;
      ghost var before := bank[..];
      if newMode.Fiq? {
        for i := 8 to 15
          invariant forall j | 0 <= j < 49 ::
                      bank[j] == if from <= j < from + i - 8 then reg[j - from + 8] else before[j]
        {
          bank[from + i - 8] := reg[i];
        }
        assert bank[..] == before[..from] + reg[8..15] + before[from + 7..];
      } else {
        bank[from + 5] := reg[SP];
        bank[from + 6] := reg[LR];
      }
    }

    /** Brings in the registers of the new mode. */
    method Load(newMode: CpuMode)
      requires Sizes()
      modifies reg
      ensures var k := newMode.Row() * 7;
              reg[..] == if mode.Fiq? then old(reg[..8]) + bank[k..k + 7] + old(reg[15..])
                         else old(reg[..])[SP := bank[k + 5]][LR := bank[k + 6]]
    {
      hide CpuMode.Row;
      var k := newMode.Row() * 7;
      ghost var before := reg[..];
      if mode.Fiq? {
        for i := 8 to 15
          invariant forall j | 0 <= j < 16 :: reg[j] == if 8 <= j < i then bank[k + j - 8] else before[j]
        {
          reg[i] := bank[k + i - 8];
        }
        assert reg[..] == before[..8] + bank[k..k + 7] + before[15..];
      } else {
        reg[SP] := bank[k + 5];
        reg[LR] := bank[k + 6];
      }
    }

    method CollapseFlags()
      requires Sizes()
      modifies `cpsr
      ensures Now() == Collapse(old(Now()))
    {
      cpsr := Collapsed(cpsr, flags);
    }

    method ExtractFlags()
      requires Sizes()
      modifies `flags
      ensures Now() == Extract(old(Now()))
    {
      flags := Extracted(cpsr);
    }

    /** Takes an interrupt if one is pending and not masked. */
    method CheckAndRaise(pending: bool) returns (taken: bool)
      requires Sizes()
      modifies `mode, `cpsr, reg, bank, spsr
      ensures Now() == CheckIrq(old(Now()), pending) && taken == (pending && !IrqOff(old(cpsr)))
    {
      hide SetMode, IrqOff;
      taken := pending && !IrqOff(cpsr);
      if taken {
        bank[1 * 7 + 6] := Plus(reg[PC], 4);
        spsr[1] := cpsr;
        cpsr := IRQ_STATUS;
        reg[PC] := 0x18;
        SetCpuMode(Irq);
      }
    }

    /** MSR to the current status register, through the mask for the current mode. */
    method StoreCpsr(source: Psr, field: nat, pending: bool)
      requires Sizes() && field < 4
      modifies `mode, `cpsr, `flags, reg, bank, spsr
      ensures Now() == WriteCpsr(old(Now()), source, field, pending)
    {
      hide SetMode, ModeOf, Extracted, Masked, CpsrMask;
      var mask := CpsrMask(field, !mode.User?);
      cpsr := Masked(source, cpsr, mask);
      ExtractFlags();
      if mask & 0xFF != 0 {
        SetCpuMode(ModeOf(cpsr));
        var _ := CheckAndRaise(pending);
      }
    }

    method StoreSpsr(source: Psr, field: nat)
      requires Sizes() && !mode.Invalid? && field < 4
      modifies spsr
      ensures Now() == WriteSpsr(old(Now()), source, field)
    {
      hide Masked;
      spsr[mode.Row()] := Masked(source, spsr[mode.Row()], SPSR_MASKS[field]);
    }

    method SoftwareInterrupt(width: nat)
      requires Sizes()
      modifies `mode, `cpsr, reg, bank, spsr
      ensures Now() == Swi(old(Now()), width)
    {
      hide SetMode, SwiStatus;
      bank[3 * 7 + 6] := Plus(reg[PC], width);
      spsr[3] := cpsr;
      reg[PC] := 8;
      cpsr := SwiStatus(cpsr);
      SetCpuMode(Supervisor);
    }

    method ExceptionReturn(target: u32, pending: bool)
      requires Sizes() && !mode.Invalid?
      modifies `mode, `cpsr, `flags, reg, bank, spsr
      ensures Now() == Return(old(Now()), target, pending)
    {
      hide SetMode, ModeOf, Extracted;
      reg[PC] := target;
      if !mode.User? && !mode.System? {
        cpsr := spsr[mode.Row()];
        ExtractFlags();
        SetCpuMode(ModeOf(cpsr));
        var _ := CheckAndRaise(pending);
      }
    }

    method BranchTo(target: u32)
      requires Sizes()
      modifies `cpsr, reg
      ensures Now() == BranchExchange(old(Now()), target)
    {
      hide WithThumb;
      reg[PC] := if Odd(target) then target - 1 else target;
      cpsr := WithThumb(cpsr, Odd(target));
    }

    /** One turn of the interpreter: the flags are put back first. The processor stays well formed. */
    method Execute(op: Op)
      requires Sizes() && Good(Now()) && Allowed(Now(), op)
      modifies `mode, `cpsr, `flags, reg, bank, spsr
      ensures Now() == Apply(old(Now()), op) && Good(Now())
    {
      hide Collapse, WriteCpsr, WriteSpsr, Swi, CheckIrq, Extract, Return, BranchExchange, Good;
      ApplyKeepsGood(Now(), op);
      KeepsMode(Now());
      CollapseFlags();
      match op
      case Compute(f, r) =>
        flags := f;
        forall i | 0 <= i < 16 {
          reg[i] := r[i];
        }
        assert reg[..] == r;
      case MsrCpsr(source, field, pending) => StoreCpsr(source, field, pending);
      case MsrSpsr(source, field) => StoreSpsr(source, field);
      case SoftwareInterrupt(width) => SoftwareInterrupt(width);
      case Interrupt(pending) =>
        var _ := CheckAndRaise(pending);
        ExtractFlags();
      case ExceptionReturn(target, pending) => ExceptionReturn(target, pending);
      case Bx(target) => BranchTo(target);
    }
  }

  lemma KeepsMode(s: State)
    requires s.Fits()
    ensures Collapse(s) == s.(cpsr := Collapse(s).cpsr)
  {
  }
}
