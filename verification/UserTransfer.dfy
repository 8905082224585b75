/** The variant of LDM and STM that transfers the registers of user mode: it switches to user mode for the
    transfer and back. */
module UserTransfer {
  import opened Word32
  import Modes = CpuModes
  import Block = BlockTransfer

  datatype State = State(cpu: Modes.State, memory: Block.Memory) {
    ghost predicate Fits() { cpu.Fits() }
  }

  /** The instruction; the base address is read before the switch. A load with the program counter as its base
      stays in the current mode. */
  function Transfer(s: State, load: bool, rn: nat, list: Block.RegList, mode: Block.AddrMode, writeback: bool)
    : (r: State)
    requires s.Fits() && rn < 16
    ensures r.Fits()
  {
    var switched := !load || rn != Modes.PC;
    var inside := if switched then Modes.SetMode(s.cpu, Modes.User) else s.cpu;
    var before := Block.State(inside.reg, s.memory);
    var after := if load then Block.LoadAt(before, s.cpu.reg[rn], rn, list, mode, writeback, 4)
                 else Block.StoreAt(before, s.cpu.reg[rn], rn, list, mode, writeback, 4);
    var done := inside.(reg := after.regs);
    State(if switched then Modes.SetMode(done, Modes.ModeOf(s.cpu.cpsr)) else done, after.memory)
  }

  /** What user mode sees in a register, outside fast interrupt mode. */
  function UserView(s: Modes.State, i: nat): u32
    requires s.Fits() && i < 15
  {
    if i < 13 then s.reg[i] else Modes.View(s, Modes.User, i)
  }

  /** In user mode the registers are what user mode sees. */
  lemma UserRegisters(s: Modes.State, i: nat)
    requires s.Fits() && !s.mode.Fiq? && i < 15
    ensures Modes.SetMode(s, Modes.User).reg[i] == UserView(s, i)
  {
    hide Modes.SetMode;
    var u := Modes.SetMode(s, Modes.User);
    Modes.SetModeKeepsViews(s, Modes.User, Modes.User);
    assert u.reg[..13] == s.reg[..13];
    if i < 13 {
      assert u.reg[i] == u.reg[..13][i] == s.reg[..13][i];
    }
  }

  /** A store without write-back from any mode but fast interrupt mode writes what user mode sees, to the
      words the list says; the current mode, and what every mode sees of its stack pointer and link
      register, stay as they are. */
  lemma StoresUserRegisters(s: State, rn: nat, list: Block.RegList, mode: Block.AddrMode, k: Modes.CpuMode)
    requires Modes.Good(s.cpu) && !s.cpu.mode.Fiq? && rn < 16
    ensures var r := Transfer(s, false, rn, list, mode, false);
            && (forall i | 0 <= i < 15 && list[i] ::
                  Block.Read(r.memory, Block.WordOf(list, mode, s.cpu.reg[rn], i)) == UserView(s.cpu, i))
            && r.cpu.mode == s.cpu.mode && r.cpu.cpsr == s.cpu.cpsr
            && Modes.View(r.cpu, k, Modes.SP) == Modes.View(s.cpu, k, Modes.SP)
            && Modes.View(r.cpu, k, Modes.LR) == Modes.View(s.cpu, k, Modes.LR)
            && r.cpu.reg[..13] == s.cpu.reg[..13]
  {
    hide Modes.SetMode, Block.StoredFrom, Block.Address, Block.WordOf, Block.Lowest, Block.EndAddress, Block.Count;
    var u := Modes.SetMode(s.cpu, Modes.User);
    var base := s.cpu.reg[rn];
    var end := Block.EndAddress(mode, base, Block.Count(list, 16));
    var start := Block.Lowest(mode, base, Block.Count(list, 16));
    var values := Block.StoreValues(u.reg, rn, list, end, false, 4);
    Block.StoredWords(s.memory, values, list, start, 0);
    forall i | 0 <= i < 15 && list[i]
      ensures values[i] == UserView(s.cpu, i)
    {
      UserRegisters(s.cpu, i);
    }
    Block.AddressesAreWords(list, mode, base);
    var done := u.(reg := u.reg[Modes.PC := Plus(u.reg[Modes.PC], 4)]);
    Modes.SetModeKeepsViews(s.cpu, Modes.User, k);
    Modes.SetModeKeepsViews(done, s.cpu.mode, k);
    assert done.reg[..13] == u.reg[..13] == s.cpu.reg[..13];
    assert Modes.View(done, k, Modes.SP) == Modes.View(u, k, Modes.SP);
    assert Modes.View(done, k, Modes.LR) == Modes.View(u, k, Modes.LR);
  }

  /** A load without write-back and without the program counter gives user mode the listed registers, and
      no other mode sees its stack pointer or link register change. */
  lemma LoadsUserRegisters(s: State, rn: nat, list: Block.RegList, mode: Block.AddrMode, k: Modes.CpuMode)
    requires Modes.Good(s.cpu) && !s.cpu.mode.Fiq? && rn < Modes.PC && !list[Modes.PC]
    ensures var r := Transfer(s, true, rn, list, mode, false);
            && (forall i | 0 <= i < 15 :: UserView(r.cpu, i) ==
                  if list[i] then Block.Read(s.memory, Block.WordOf(list, mode, s.cpu.reg[rn], i))
                  else UserView(s.cpu, i))
            && r.cpu.mode == s.cpu.mode && r.cpu.cpsr == s.cpu.cpsr && r.memory == s.memory
            && (k.Row() != 0 ==> Modes.View(r.cpu, k, Modes.SP) == Modes.View(s.cpu, k, Modes.SP))
            && (k.Row() != 0 ==> Modes.View(r.cpu, k, Modes.LR) == Modes.View(s.cpu, k, Modes.LR))
  {
    hide Modes.SetMode, Block.LoadedFrom, Block.Address, Block.WordOf, Block.Lowest, Block.EndAddress, Block.Count;
    var u := Modes.SetMode(s.cpu, Modes.User);
    var start := Block.Lowest(mode, s.cpu.reg[rn], Block.Count(list, 16));
    var stepped := u.reg[Modes.PC := Plus(u.reg[Modes.PC], 4)];
    Block.LoadedWords(stepped, s.memory, list, start, 0);
    Block.AddressesAreWords(list, mode, s.cpu.reg[rn]);
    var done := u.(reg := Block.LoadedFrom(stepped, s.memory, list, start, 0));
    var r := Modes.SetMode(done, s.cpu.mode);
    Modes.SetModeKeepsViews(done, s.cpu.mode, Modes.User);
    assert r.reg[..13] == done.reg[..13];
    forall i | 0 <= i < 15
      ensures UserView(r, i) ==
              if list[i] then Block.Read(s.memory, Block.WordOf(list, mode, s.cpu.reg[rn], i)) else UserView(s.cpu, i)
    {
      UserRegisters(s.cpu, i);
      if i < 13 {
        assert r.reg[i] == r.reg[..13][i] == done.reg[..13][i];
      }
    }
    Modes.SetModeKeepsViews(s.cpu, Modes.User, k);
    Modes.SetModeKeepsViews(done, s.cpu.mode, k);
  }

  /** The instruction itself, on the registers in place. */
  method Exec(cpu: Modes.Cpu, block: Block.Cpu, load: bool, rn: nat, list: Block.RegList, mode: Block.AddrMode,
              writeback: bool)
    requires cpu.Sizes() && block.reg == cpu.reg && rn < 16
    modifies cpu`mode, cpu.reg, cpu.bank, block
    ensures State(cpu.Now(), block.memory)
            == Transfer(old(State(cpu.Now(), block.memory)), load, rn, list, mode, writeback)
  {
    hide Modes.SetMode, Block.LoadAt, Block.StoreAt;
    var base, bits := cpu.reg[rn], cpu.cpsr;
    var switched := !load || rn != Modes.PC;
    if switched {
      cpu.SetCpuMode(Modes.User);
    }
    block.ExecArmAt(load, base, rn, list, mode, writeback);
    if switched {
      cpu.SetCpuMode(Modes.ModeOf(bits));
    }
  }
}
