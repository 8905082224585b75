/** Finding the end of a guest code block and its direct branch targets before translating it. */
module BlockScan {
  import opened Basics
  import opened Word32
  import opened DeadFlags
  import opened FlagArith
  import Interp = ThumbFlags
  import Modes = CpuModes

  datatype Mode = Arm | Thumb

  const MAX_BLOCK_SIZE := 1024
  const MAX_EXITS := 32

  /** The facts about instructions that scanning and translating use. `exit` is the direct exit of an
      instruction, given its opcode, the opcode before it in the block, and its address; `skips` are the
      opcodes that the translator has no case for. */
  datatype Decoder = Decoder(
    exit: (Mode, u32, u32, u32) -> Option<u32>,
    isExitPoint: (Mode, u32) -> bool,
    isUnconditional: (Mode, u32) -> bool,
    skips: (Mode, u32) -> bool)

  /** The guest's code memory, as words and as halfwords, the addresses blocks must stop at, and the
      decoder (which is DECODER in the emulator; nothing about scanning depends on it). */
  datatype Guest = Guest(word: u32 -> u32, half: u32 -> Interp.Opcode, gates: seq<u32>, decoder: Decoder)

  function Width(mode: Mode): int { if mode.Arm? then 4 else 2 }

  /** The address after an instruction of the given width, around the end of the address space. */
  function Step(pc: u32, width: int): u32
    requires 0 <= width <= 4
  {
    if pc + width < WORD then pc + width else pc + width - WORD
  }

  /** The address of instruction `i` of a block. */
  function PcAt(mode: Mode, start: u32, i: nat): u32 {
    if i == 0 then start else Step(PcAt(mode, start, i - 1), Width(mode))
  }

  function OpcodeAt(g: Guest, mode: Mode, pc: u32): u32 {
    if mode.Arm? then g.word(pc) else g.half(pc)
  }

  // ----------------------------------------------------------------------------------------------
  // Decoding
  // ----------------------------------------------------------------------------------------------

  /** Hexadecimal digit `d` of an opcode, counted from the right. */
  function Digit(op: u32, d: nat): int
    requires d < 8
  {
    if d == 0 then op % 16
    else if d == 1 then op / 0x10 % 16
    else if d == 2 then op / 0x100 % 16
    else if d == 3 then op / 0x1000 % 16
    else if d == 4 then op / 0x10000 % 16
    else if d == 5 then op / 0x100000 % 16
    else if d == 6 then op / 0x1000000 % 16
    else op / 0x10000000 % 16
  }

  /** The digits make up the opcode. */
  lemma DigitsMakeUpOpcode(op: u32)
    ensures op == Digit(op, 0) + 0x10 * Digit(op, 1) + 0x100 * Digit(op, 2) + 0x1000 * Digit(op, 3)
                  + 0x10000 * Digit(op, 4) + 0x100000 * Digit(op, 5) + 0x1000000 * Digit(op, 6)
                  + 0x10000000 * Digit(op, 7)
    ensures forall d: nat | d < 8 :: 0 <= Digit(op, d) < 16
  {
    Tower(op);
    SplitAll(op, op / 0x10, op / 0x100, op / 0x1000, op / 0x10000, op / 0x100000, op / 0x1000000, op / 0x10000000);
  }

  lemma SplitAll(x0: int, x1: int, x2: int, x3: int, x4: int, x5: int, x6: int, x7: int)
    requires x1 == x0 / 16 && x2 == x1 / 16 && x3 == x2 / 16 && x4 == x3 / 16
    requires x5 == x4 / 16 && x6 == x5 / 16 && x7 == x6 / 16 && 0 <= x7 < 16
    ensures x0 == x0 % 16 + 0x10 * (x1 % 16) + 0x100 * (x2 % 16) + 0x1000 * (x3 % 16) + 0x10000 * (x4 % 16)
                  + 0x100000 * (x5 % 16) + 0x1000000 * (x6 % 16) + 0x10000000 * (x7 % 16)
  {
    assert x6 == 16 * x7 + x6 % 16;
    assert x5 == 16 * x6 + x5 % 16;
    assert x4 == 16 * x5 + x4 % 16;
    assert x3 == 16 * x4 + x3 % 16;
    assert x2 == 16 * x3 + x2 % 16;
    assert x1 == 16 * x2 + x1 % 16;
    assert x0 == 16 * x1 + x0 % 16;
  }

  lemma Tower(x: nat)
    ensures x / 0x100 == x / 0x10 / 16 && x / 0x1000 == x / 0x100 / 16 && x / 0x10000 == x / 0x1000 / 16
    ensures x / 0x100000 == x / 0x10000 / 16 && x / 0x1000000 == x / 0x100000 / 16
    ensures x / 0x10000000 == x / 0x1000000 / 16
  {
  }

  /** The software interrupts for division are translated in line. */
  predicate IsDivSwi(number: int) { number == 6 || number == 7 }

  predicate ArmExitPoint(op: u32) {
    var low := op % 0x10000000;
    || (low < 0x8000000 && Digit(op, 3) == 15 &&
        !((Digit(op, 6) == 1 || Digit(op, 6) == 3) && (Digit(op, 5) == 2 || Digit(op, 5) == 6)))
    || (Odd(Digit(op, 6)) && Odd(Digit(op, 5) / 2) && Digit(op, 4) == 15 && Digit(op, 3) == 15 &&
        Digit(op, 2) == 15 && Odd(Digit(op, 1)))
    || (Digit(op, 6) >= 8 && Odd(Digit(op, 5)) && Digit(op, 3) >= 8)
    || (0xA000000 <= low < 0xF000000)
    || (0xF000000 <= low && !IsDivSwi(op / 0x10000 % 0x100))
  }

  predicate ArmBranch(op: u32) { Digit(op, 6) == 0xA || Digit(op, 6) == 0xB }

  predicate ArmSwi(op: u32) { Digit(op, 6) == 0xF }

  /** The 24-bit offset of B and BL, in bytes. */
  function ArmOffset(op: u32): int {
    var field := op % 0x1000000;
    4 * (if field < 0x800000 then field else field - 0x1000000)
  }

  predicate ThumbExitPoint(op: Interp.Opcode) {
    || 0xD000 <= op < 0xDF00
    || (Interp.High(op) == 0xDF && !IsDivSwi(op % 0x100))
    || 0xE000 <= op < 0xE800
    || Interp.High(op) == 0x47
    || Interp.High(op) == 0xBD
    || Interp.IsMovPc(op)
    || 0xF800 <= op
  }

  predicate ThumbBranch(op: Interp.Opcode) {
    0xD000 <= op < 0xDF00 || 0xE000 <= op < 0xE800 || 0xF800 <= op
  }

  predicate IsExitPoint(mode: Mode, op: u32) {
    if mode.Arm? then ArmExitPoint(op) else op < 0x10000 && ThumbExitPoint(op)
  }

  predicate IsUnconditional(mode: Mode, op: u32) {
    if mode.Arm? then op / 0x10000000 == 0xE else op < 0xD000 || 0xDF00 <= op
  }

  /** The branch target computed while scanning, from the address after the instruction. `last` is
      the opcode before it in the block. A second half of BL on its own has no direct target. */
  function ThumbTarget(op: Interp.Opcode, last: Interp.Opcode, next: u32): Option<u32>
    requires ThumbBranch(op)
  {
    if op < 0xE000 then Some(Wrap(next + 2 + Interp.ShortOffset(op)))
    else if op < 0xF800 then Some(Wrap(next + 2 + 2 * Interp.LongOffset(op)))
    else if 0xF000 <= last < 0xF800 then
      Some(Wrap(next + Interp.LongOffset(last) * 0x1000 + (op % 0x800) * 2))
    else None
  }

  /** The direct exit of the instruction `op` at `pc`, if it has one: its branch target, or the
      software interrupt vector. */
  function DirectExit(mode: Mode, op: u32, last: u32, pc: u32): Option<u32> {
    if !IsExitPoint(mode, op) then None
    else if mode.Arm? then
      if ArmBranch(op) then Some(Wrap(pc + 8 + ArmOffset(op)))
      else if ArmSwi(op) then Some(8)
      else None
    else if ThumbBranch(op) then ThumbTarget(op, last % 0x10000, Plus(pc, 2))
    else if Interp.High(op) == 0xDF then Some(8)
    else None
  }

  const DECODER := Decoder(
    (mode, op: u32, last: u32, pc: u32) => DirectExit(mode, op, last, pc),
    (mode, op: u32) => IsExitPoint(mode, op),
    (mode, op: u32) => IsUnconditional(mode, op),
    (mode, op: u32) => Skipped(mode, op))

  /** The opcodes that the scan takes for conditional branches although neither the interpreter nor the
      translator has a case for them. */
  predicate Skipped(mode: Mode, op: u32) { mode.Thumb? && op / 0x100 == 0xDE }

  /** The opcode of the last of `length` scanned instructions; the scan starts from zero. */
  function LastOpcode(g: Guest, mode: Mode, start: u32, length: nat): u32 {
    if length == 0 then 0 else OpcodeAt(g, mode, PcAt(mode, start, length - 1))
  }

  /** The direct exit of instruction `i` of the block that starts at `start`. */
  function ExitOf(g: Guest, mode: Mode, start: u32, i: nat): Option<u32> {
    var pc := PcAt(mode, start, i);
    var op := OpcodeAt(g, mode, pc);
    if g.decoder.isExitPoint(mode, op) then g.decoder.exit(mode, op, LastOpcode(g, mode, start, i), pc)
    else None
  }

  // ----------------------------------------------------------------------------------------------
  // Scanning
  // ----------------------------------------------------------------------------------------------

  /** A scanned block: the address after it, the exit of each instruction, how many of its
      instructions the flag elimination pass covers, the opcode it ends with and its exit table. */
  datatype Scanned = Scanned(
    endPc: u32, exits: seq<Option<u32>>, counted: nat, lastOpcode: u32, targets: seq<u32>)

  function Direct(exits: seq<Option<u32>>): (r: seq<u32>)
    ensures |r| <= |exits|
  {
    if exits == [] then []
    else
      var before := Direct(exits[..|exits| - 1]);
      match exits[|exits| - 1]
      case None => before
      case Some(t) => before + [t]
  }

  lemma {:induction false} DirectMember(exits: seq<Option<u32>>, t: u32)
    requires t in Direct(exits)
    ensures exists i :: 0 <= i < |exits| && exits[i] == Some(t)
  {
    if exits != [] {
      var last := |exits| - 1;
      if exits[last] != Some(t) {
        DirectMember(exits[..last], t);
        var i :| 0 <= i < last && exits[..last][i] == Some(t);
        assert exits[i] == Some(t);
      }
    }
  }

  /** Control does not fall through the instruction `op`. */
  predicate Ends(g: Guest, mode: Mode, op: u32) {
    g.decoder.isExitPoint(mode, op) && g.decoder.isUnconditional(mode, op)
  }

  /** Control can reach each instruction of the block from an earlier one: the one right before it falls
      through, or one before that branches to it. */
  ghost predicate Connected(exits: seq<Option<u32>>, g: Guest, mode: Mode, start: u32) {
    forall i | 0 < i < |exits| :: Reached(exits, g, mode, start, i)
  }

  ghost predicate Reached(exits: seq<Option<u32>>, g: Guest, mode: Mode, start: u32, i: nat)
    requires 0 < i <= |exits|
  {
    Ends(g, mode, LastOpcode(g, mode, start, i)) ==>
      exists k | 0 <= k < i - 1 :: exits[k] == Some(PcAt(mode, start, i))
  }

  ghost predicate ExitsMatch(exits: seq<Option<u32>>, g: Guest, mode: Mode, start: u32) {
    forall i | 0 <= i < |exits| :: exits[i] == ExitOf(g, mode, start, i)
  }

  /** No instruction of the block but the first is at a gate. */
  ghost predicate NoGateInside(length: nat, g: Guest, mode: Mode, start: u32) {
    forall i | 0 < i < length :: PcAt(mode, start, i) !in g.gates
  }

  ghost predicate IsScanOf(s: Scanned, g: Guest, mode: Mode, start: u32) {
    && ScanSoFar(s, g, mode, start)
    && 1 <= |s.exits| <= MAX_BLOCK_SIZE
    && |s.exits| - 1 <= s.counted <= |s.exits|
    && |s.targets| <= MAX_EXITS
    && StopReason(g, mode, s.lastOpcode, |s.targets|, s.endPc, |s.exits|)
  }

  /** Why a scan stops: after an unconditional exit, with a full exit table, at a gate, at the size
      limit, or at one of two addresses near the end of a RAM region. */
  predicate StopReason(g: Guest, mode: Mode, opcode: u32, exits: nat, endPc: u32, length: nat) {
    || (g.decoder.isExitPoint(mode, opcode) && g.decoder.isUnconditional(mode, opcode))
    || (g.decoder.isExitPoint(mode, opcode) && exits == MAX_EXITS)
    || endPc in g.gates
    || length == MAX_BLOCK_SIZE
    || endPc == 0x3007FF0 || endPc == 0x203FFFF0
  }

  ghost predicate Joined(targets: seq<u32>, endPc: u32) {
    exists i | 0 <= i < |targets| - 1 :: targets[i] == endPc
  }

  /** Whether an earlier branch lands right after the instruction just scanned, so that the block goes
      on; the most recent entry of the table is not looked at. */
  method JoinsLater(targets: seq<u32>, endPc: u32) returns (joins: bool)
    ensures joins <==> Joined(targets, endPc)
  {
    var i := |targets| - 2;
    while i >= 0 && targets[i] != endPc
      invariant -1 <= i || i == |targets| - 2
      invariant forall j | 0 <= j && i < j < |targets| - 1 :: targets[j] != endPc
    {
      i := i - 1;
    }
    joins := i >= 0;
  }

  lemma DirectNone()
    ensures Direct([]) == []
  {
  }

  lemma DirectAppend(exits: seq<Option<u32>>, exit: Option<u32>)
    ensures Direct(exits + [exit]) == Direct(exits) + (if exit.Some? then [exit.value] else [])
  {
    assert (exits + [exit])[..|exits + [exit]| - 1] == exits;
  }

  /** Loads instruction `i` of the block, at `pc`, and steps past it. */
  method LoadOpcode(g: Guest, mode: Mode, start: u32, i: nat, pc: u32, lastOpcode: u32)
    returns (opcode: u32, exit: Option<u32>, endPc: u32)
    requires pc == PcAt(mode, start, i) && lastOpcode == LastOpcode(g, mode, start, i)
    ensures opcode == LastOpcode(g, mode, start, i + 1)
    ensures exit == ExitOf(g, mode, start, i)
    ensures exit.Some? ==> g.decoder.isExitPoint(mode, opcode)
    ensures endPc == PcAt(mode, start, i + 1)
  {
    opcode := OpcodeAt(g, mode, pc);
    exit := if g.decoder.isExitPoint(mode, opcode) then g.decoder.exit(mode, opcode, lastOpcode, pc) else None;
    endPc := Step(pc, Width(mode));
  }

  /** Whether the scan ends after an instruction that leaves `length` instructions scanned, and whether
      that last one still counts for the flag elimination pass. */
  method StopsAfter(g: Guest, mode: Mode, opcode: u32, targets: seq<u32>, endPc: u32, length: nat)
    returns (stop: bool, counted: bool)
    requires |targets| <= MAX_EXITS && length <= MAX_BLOCK_SIZE
    requires !g.decoder.isExitPoint(mode, opcode) ==> |targets| < MAX_EXITS
    ensures !stop ==> counted && endPc !in g.gates && |targets| < MAX_EXITS && length < MAX_BLOCK_SIZE
    ensures !stop && Ends(g, mode, opcode) ==> Joined(targets, endPc)
    ensures stop ==> StopReason(g, mode, opcode, |targets|, endPc, length)
  {
    if g.decoder.isExitPoint(mode, opcode) {
      if g.decoder.isUnconditional(mode, opcode) {
        var joins := JoinsLater(targets, endPc);
        if !joins {
          return true, false;
        }
      }
      if |targets| == MAX_EXITS {
        return true, false;
      }
    }
    if endPc in g.gates {
      return true, false;
    }
    return length == MAX_BLOCK_SIZE || endPc == 0x3007FF0 || endPc == 0x203FFFF0, true;
  }

  /** The state of a scan after any number of instructions. */
  ghost predicate ScanSoFar(s: Scanned, g: Guest, mode: Mode, start: u32) {
    && s.endPc == PcAt(mode, start, |s.exits|)
    && s.targets == Direct(s.exits)
    && s.lastOpcode == LastOpcode(g, mode, start, |s.exits|)
    && ExitsMatch(s.exits, g, mode, start)
    && NoGateInside(|s.exits|, g, mode, start)
    && Connected(s.exits, g, mode, start)
  }

  /** A scan that has not met a reason to stop. */
  ghost predicate GoesOn(s: Scanned, g: Guest, mode: Mode) {
    && (s.exits != [] && Ends(g, mode, s.lastOpcode) ==> Joined(s.targets, s.endPc))
    && s.counted == |s.exits| < MAX_BLOCK_SIZE
    && |s.targets| < MAX_EXITS
    && (s.exits != [] ==> s.endPc !in g.gates)
  }

  lemma MatchExtends(exits: seq<Option<u32>>, exit: Option<u32>, g: Guest, mode: Mode, start: u32)
    requires ExitsMatch(exits, g, mode, start)
    requires exit == ExitOf(g, mode, start, |exits|)
    ensures ExitsMatch(exits + [exit], g, mode, start)
  {
  }

  lemma GatesExtend(length: nat, g: Guest, mode: Mode, start: u32)
    requires NoGateInside(length, g, mode, start)
    requires length > 0 ==> PcAt(mode, start, length) !in g.gates
    ensures NoGateInside(length + 1, g, mode, start)
  {
  }

  lemma SoFarExtends(s: Scanned, exit: Option<u32>, op: u32, endPc: u32, counted: nat,
                     g: Guest, mode: Mode, start: u32)
    requires ScanSoFar(s, g, mode, start) && (s.exits != [] ==> s.endPc !in g.gates)
    requires s.exits != [] && Ends(g, mode, s.lastOpcode) ==> Joined(s.targets, s.endPc)
    requires exit == ExitOf(g, mode, start, |s.exits|)
    requires op == LastOpcode(g, mode, start, |s.exits| + 1)
    requires endPc == PcAt(mode, start, |s.exits| + 1)
    ensures ScanSoFar(Scanned(endPc, s.exits + [exit], counted, op,
                              s.targets + (if exit.Some? then [exit.value] else [])), g, mode, start)
  {
    DirectAppend(s.exits, exit);
    MatchExtends(s.exits, exit, g, mode, start);
    GatesExtend(|s.exits|, g, mode, start);
    ConnectionExtends(s, exit, g, mode, start);
  }

  /** A branch to the end of the block, other than the newest, comes from an instruction before the last. */
  lemma JoinComesFromBefore(exits: seq<Option<u32>>, endPc: u32)
    requires Joined(Direct(exits), endPc)
    ensures exists k | 0 <= k < |exits| - 1 :: exits[k] == Some(endPc)
  {
    hide Direct;
    DirectNone();
    var i :| 0 <= i < |Direct(exits)| - 1 && Direct(exits)[i] == endPc;
    var before, last := exits[..|exits| - 1], exits[|exits| - 1];
    assert exits == before + [last];
    DirectAppend(before, last);
    assert Direct(before)[i] == endPc;
    DirectMember(before, endPc);
    var k :| 0 <= k < |before| && before[k] == Some(endPc);
    assert exits[k] == Some(endPc);
  }

  lemma ConnectionExtends(s: Scanned, exit: Option<u32>, g: Guest, mode: Mode, start: u32)
    requires ScanSoFar(s, g, mode, start)
    requires s.exits != [] && Ends(g, mode, s.lastOpcode) ==> Joined(s.targets, s.endPc)
    ensures Connected(s.exits + [exit], g, mode, start)
  {
    var more := s.exits + [exit];
    forall i | 0 < i < |more|
      ensures Reached(more, g, mode, start, i)
    {
      if Ends(g, mode, LastOpcode(g, mode, start, i)) {
        var pc := PcAt(mode, start, i);
        if i < |s.exits| {
          assert Reached(s.exits, g, mode, start, i);
          var k :| 0 <= k < i - 1 && s.exits[k] == Some(pc);
          assert more[k] == Some(pc);
        } else {
          JoinComesFromBefore(s.exits, pc);
          var k :| 0 <= k < |s.exits| - 1 && s.exits[k] == Some(pc);
          assert more[k] == Some(pc);
        }
      }
    }
  }

  /** One turn of the scanning loop. */
  method ScanNext(g: Guest, mode: Mode, start: u32, s: Scanned) returns (t: Scanned, stop: bool)
    requires ScanSoFar(s, g, mode, start) && GoesOn(s, g, mode)
    ensures ScanSoFar(t, g, mode, start) && |t.exits| == |s.exits| + 1
    ensures !stop ==> GoesOn(t, g, mode)
    ensures stop ==> |t.targets| <= MAX_EXITS && |t.exits| - 1 <= t.counted <= |t.exits|
    ensures stop ==> StopReason(g, mode, t.lastOpcode, |t.targets|, t.endPc, |t.exits|)
  {
    var opcode, exit, endPc := LoadOpcode(g, mode, start, |s.exits|, s.endPc, s.lastOpcode);
    var targets := s.targets + (if exit.Some? then [exit.value] else []);
    var counted;
    stop, counted := StopsAfter(g, mode, opcode, targets, endPc, |s.exits| + 1);
    t := Scanned(endPc, s.exits + [exit], if counted then s.counted + 1 else s.counted, opcode, targets);
    SoFarExtends(s, exit, opcode, endPc, t.counted, g, mode, start);
  }

  method Scan(g: Guest, mode: Mode, start: u32) returns (s: Scanned)
    ensures IsScanOf(s, g, mode, start)
  {
    var stop;
    s, stop := ScanNext(g, mode, start, Scanned(start, [], 0, 0, []));
    while !stop
      invariant ScanSoFar(s, g, mode, start) && 1 <= |s.exits| <= MAX_BLOCK_SIZE
      invariant !stop ==> GoesOn(s, g, mode)
      invariant stop ==> |s.targets| <= MAX_EXITS && |s.exits| - 1 <= s.counted <= |s.exits|
      invariant stop ==> StopReason(g, mode, s.lastOpcode, |s.targets|, s.endPc, |s.exits|)
      decreases !stop, MAX_BLOCK_SIZE - |s.exits|
    {
      s, stop := ScanNext(g, mode, start, s);
    }
  }

  // ----------------------------------------------------------------------------------------------
  // Exits that the translator emits
  // ----------------------------------------------------------------------------------------------

  /** The instructions for which the translator's cases take the next entry of the exit table. `last` is the
      opcode it has translated before. */
  predicate TakesExit(mode: Mode, op: u32, last: u32) {
    if mode.Arm? then ArmBranch(op) || (ArmSwi(op) && !IsDivSwi(op / 0x10000 % 0x100))
    else
      || 0xD0 <= op / 0x100 <= 0xDD
      || (op / 0x100 == 0xDF && !IsDivSwi(op % 0x100))
      || 0xE0 <= op / 0x100 <= 0xE7
      || (0xF8 <= op / 0x100 && 0xF000 <= last < 0xF800)
  }

  /** The opcode that the translator takes for the one before instruction `i`: it starts with the one that the
      scan has ended on. */
  function LastTranslated(g: Guest, mode: Mode, start: u32, s: Scanned, i: nat): u32 {
    if i == 0 then s.lastOpcode else LastOpcode(g, mode, start, i)
  }

  /** Instruction `i` of a scanned block has an exit for which the translator emits a branch. */
  predicate Emits(g: Guest, mode: Mode, start: u32, s: Scanned, i: nat)
    requires i < |s.exits|
  {
    s.exits[i].Some? && !g.decoder.skips(mode, OpcodeAt(g, mode, PcAt(mode, start, i)))
  }

  /** The translator's own cases come to the same: it emits a branch for every recorded exit but those of the
      opcodes it has no case for. */
  lemma EmitsIff(g: Guest, mode: Mode, start: u32, s: Scanned, i: nat)
    requires g.decoder == DECODER && IsScanOf(s, g, mode, start) && i < |s.exits|
    ensures var op := OpcodeAt(g, mode, PcAt(mode, start, i));
            TakesExit(mode, op, LastTranslated(g, mode, start, s, i)) <==> Emits(g, mode, start, s, i)
  {
    assert PcAt(mode, start, 0) == start;
    hide PcAt, Digit, IsScanOf;
    var op, last := OpcodeAt(g, mode, PcAt(mode, start, i)), LastOpcode(g, mode, start, i);
    ScanMatches(s, g, mode, start, i);
    assert ExitOf(g, mode, start, i) == DirectExit(mode, op, last, PcAt(mode, start, i));
    if mode.Arm? {
      ArmCases(op, last, PcAt(mode, start, i));
    } else {
      ThumbCases(op, last, PcAt(mode, start, i));
      if i == 0 {
        FirstHasNoPrefix(g, start, s);
      }
    }
  }

  lemma ScanMatches(s: Scanned, g: Guest, mode: Mode, start: u32, i: nat)
    requires IsScanOf(s, g, mode, start) && i < |s.exits|
    ensures s.exits[i] == ExitOf(g, mode, start, i)
  {
  }

  lemma ArmCases(op: u32, last: u32, pc: u32)
    ensures TakesExit(Arm, op, last) <==> DirectExit(Arm, op, last, pc).Some?
  {
    if ArmBranch(op) {
      BranchesExit(op);
    } else if ArmSwi(op) {
      assert 0xF000000 <= op % 0x10000000;
      DivHasNoExit(op);
    }
  }

  lemma DivHasNoExit(op: u32)
    requires ArmSwi(op)
    ensures ArmExitPoint(op) <==> !IsDivSwi(op / 0x10000 % 0x100)
  {
    assert 0xF000000 <= op % 0x10000000;
    SwiNumber(op);
    hide Digit;
  }

  lemma SwiNumber(op: u32)
    ensures op / 0x10000 % 0x100 == 16 * Digit(op, 5) + Digit(op, 4) && 0 <= Digit(op, 4) < 16
  {
    var q := op / 0x10000;
    assert Digit(op, 5) == q / 16 % 16;
  }

  lemma ThumbCases(op: u32, last: u32, pc: u32)
    requires op < 0x10000 && last < 0x10000
    ensures TakesExit(Thumb, op, last) <==> DirectExit(Thumb, op, last, pc).Some? && !Skipped(Thumb, op)
  {
  }

  /** A second half of BL at the start of a block ends it, so that the opcode before it is itself. */
  lemma FirstHasNoPrefix(g: Guest, start: u32, s: Scanned)
    requires g.decoder == DECODER && IsScanOf(s, g, Thumb, start)
    ensures 0xF800 <= g.half(start) ==> s.lastOpcode == g.half(start) && s.exits[0] == None
  {
    assert PcAt(Thumb, start, 0) == start && LastOpcode(g, Thumb, start, 1) == g.half(start);
    if 0xF800 <= g.half(start) {
      assert Ends(g, Thumb, g.half(start));
      assert |s.exits| > 1 ==> Reached(s.exits, g, Thumb, start, 1);
      assert |s.exits| == 1;
      assert s.exits[0] == ExitOf(g, Thumb, start, 0);
    }
  }

  // ----------------------------------------------------------------------------------------------
  // Scanning predicts execution
  // ----------------------------------------------------------------------------------------------

  /** The interpreter's decoding of the offset of ARM B and BL: the whole opcode is shifted up by eight and
      then, as a signed number, down by six. */
  function InterpretedArmOffset(op: u32): int { Signed(Wrap(op * 256)) / 64 }

  /** ARM B and BL as the interpreter executes them: skipped if the condition fails, and otherwise a jump,
      with the return address in r14 for BL. */
  function ArmBranchStep(op: u32, r: Interp.Regs, f: Flags): Interp.Regs
    requires ArmBranch(op)
  {
    var pc := r[15];
    if ArmSkips(op / 0x10000000, f) then r[15 := Plus(pc, 4)]
    else
      var linked := if Digit(op, 6) == 0xB then r[14 := Plus(pc, 4)] else r;
      linked[15 := Plus(pc, InterpretedArmOffset(op) + 8)]
  }

  /** The two decodings agree on all opcodes, whatever the condition and the bits above the offset. */
  lemma OffsetsAgree(op: u32)
    ensures InterpretedArmOffset(op) == ArmOffset(op)
  {
    var field := op % 0x1000000;
    assert op == 0x1000000 * (op / 0x1000000) + field;
    assert op * 256 == WORD * (op / 0x1000000) + 256 * field;
    assert Wrap(op * 256) == 256 * field;
    assert Signed(256 * field) == 64 * (if field < 0x800000 then 4 * field else 4 * field - 0x4000000);
  }

  /** An ARM branch has a direct exit, and whenever the interpreter takes it, it goes there, a BL leaving the
      address after it in r14; otherwise execution goes on after it. No other register changes. */
  lemma ArmTargetIsReached(op: u32, last: u32, r: Interp.Regs, f: Flags)
    requires ArmBranch(op)
    ensures var after := ArmBranchStep(op, r, f);
            var exit := DirectExit(Arm, op, last, r[15]);
            && exit.Some?
            && after[15] == (if ArmSkips(op / 0x10000000, f) then Plus(r[15], 4) else exit.value)
            && after[14] == (if Digit(op, 6) == 0xB && !ArmSkips(op / 0x10000000, f) then Plus(r[15], 4) else r[14])
            && after[..14] == r[..14]
  {
    hide InterpretedArmOffset, ArmOffset, ArmSkips, ArmExitPoint, ArmBranch, ArmSwi, Digit, Wrap;
    BranchesExit(op);
    OffsetsAgree(op);
  }

  lemma BranchesExit(op: u32)
    requires ArmBranch(op)
    ensures ArmExitPoint(op)
  {
    assert 0xA000000 <= op % 0x10000000 < 0xC000000;
  }

  /** The interpreter goes on after the instruction, or to this address. */
  ghost predicate FallsOrJumps<M>(w: Interp.World<M>, op: Interp.Opcode, s: Interp.Cpu<M>, f: Flags, target: u32) {
    var e := Interp.Execute(w, op, s, f);
    if e.next.Goto? then e.state.r[15] == target && e.next.index == w.place(target)
    else e.state.r[15] == Plus(s.r[15], 2)
  }

  /** A Thumb branch other than BL has a recorded target. The interpreter goes there or on after the branch, if
      and only if the opcode is not in row 0xDE: there it stays where it is, which the scan takes for the
      target of just one of them, 0xDEFE. */
  lemma ThumbTargetIsReached<M>(w: Interp.World<M>, op: Interp.Opcode, last: Interp.Opcode,
                                s: Interp.Cpu<M>, f: Flags)
    requires ThumbBranch(op) && op < 0xF000
    ensures var exit := DirectExit(Thumb, op, last, s.r[15]);
            exit.Some? && (FallsOrJumps(w, op, s, f, exit.value) <==> Interp.High(op) != 0xDE || op == 0xDEFE)
  {
    assert Interp.Execute(w, op, s, f) == Interp.Branch(w, op, s, f);
    WrapTwice(s.r[15], 2, 2 + Interp.ShortOffset(op));
    WrapTwice(s.r[15], 2, 2 + 2 * Interp.LongOffset(op));
    if Interp.High(op) == 0xDE {
      StaysOnlyAt(op, s.r[15]);
    }
  }

  lemma StaysOnlyAt(op: Interp.Opcode, pc: u32)
    requires Interp.High(op) == 0xDE
    ensures Wrap(pc + 4 + Interp.ShortOffset(op)) == pc <==> op == 0xDEFE
  {
    var distance := 4 + Interp.ShortOffset(op);
    assert op == 0xDE00 + op % 0x100 && -252 <= distance <= 258;
    assert Wrap(pc + distance) == if pc + distance < 0 then pc + distance + WORD
                                  else if pc + distance < WORD then pc + distance else pc + distance - WORD;
  }

  /** The exit recorded for a software interrupt is where the interpreter goes, in both instruction sets. */
  lemma SwiTargetIsReached<M>(w: Interp.World<M>, op: Interp.Opcode, arm: u32, last: u32, s: Interp.Cpu<M>, f: Flags,
                              c: Modes.State)
    requires Interp.High(op) == 0xDF && !IsDivSwi(op % 0x100)
    requires ArmSwi(arm) && !IsDivSwi(arm / 0x10000 % 0x100) && c.Fits()
    ensures var e := Interp.Execute(w, op, s, f);
            e.next == Goto(w.place(8)) && Some(e.state.r[15]) == DirectExit(Thumb, op, last, s.r[15])
    ensures Some(Modes.Swi(c, 4).reg[15]) == DirectExit(Arm, arm, last, c.reg[15])
  {
    assert Interp.Execute(w, op, s, f) == Interp.Branch(w, op, s, f);
    assert 0xF000000 <= arm % 0x10000000 && !ArmBranch(arm);
    assert Modes.Supervisor != Modes.Fiq;
  }

  lemma WrapTwice(x: int, y: int, z: int)
    ensures Wrap(Plus(x, y) + z) == Wrap(x + y + z)
  {
  }

  lemma CallArithmetic(pc: u32, middle: u32, link: u32, high: int, low: int)
    requires middle == Plus(pc, 2) && link == Wrap(pc + 4 + high)
    ensures Wrap(Plus(middle, 2) + high + low) == Wrap(link + low)
  {
    WrapTwice(pc, 2, 2);
    WrapTwice(pc, 4, high + low);
    WrapTwice(pc + 4, high, low);
  }

  lemma FirstHalf<M>(w: Interp.World<M>, op: Interp.Opcode, s: Interp.Cpu<M>, f: Flags)
    requires 0xF000 <= op < 0xF800
    ensures var r := Interp.Branch(w, op, s, f).state.r;
            r[15] == Plus(s.r[15], 2) && r[14] == Wrap(s.r[15] + 4 + Interp.LongOffset(op) * 0x1000)
  {
  }

  lemma SecondHalf<M>(w: Interp.World<M>, op: Interp.Opcode, s: Interp.Cpu<M>, f: Flags)
    requires 0xF800 <= op
    ensures var r, next := Interp.Branch(w, op, s, f).state.r, Plus(s.r[15], 2);
            r[15] == Wrap(s.r[14] + (op % 0x800) * 2) && r[14] == next - next % 2 + 1
  {
  }

  lemma ReturnArithmetic(pc: u32, middle: u32)
    requires pc % 2 == 0 && middle == Plus(pc, 2)
    ensures var next := Plus(middle, 2); next - next % 2 + 1 == Plus(pc, 5)
  {
    assert middle == if pc + 2 < WORD then pc + 2 else pc + 2 - WORD;
    assert Plus(middle, 2) == if middle + 2 < WORD then middle + 2 else middle + 2 - WORD;
    assert Plus(pc, 5) == if pc + 5 < WORD then pc + 5 else pc + 5 - WORD;
  }

  /** The two halves of BL, executed one after the other, arrive at the target that the scan computed
      from both opcodes, with the return address in r14. */
  lemma ThumbCallTargetIsReached<M>(w: Interp.World<M>, first: Interp.Opcode, second: Interp.Opcode,
                                    s: Interp.Cpu<M>, f: Flags)
    requires 0xF000 <= first < 0xF800 <= second
    requires s.r[15] % 2 == 0
    ensures var middle := Interp.Branch(w, first, s, f).state;
            var final := Interp.Branch(w, second, middle, f).state;
            && ThumbTarget(second, first, Plus(middle.r[15], 2)) == Some(final.r[15])
            && final.r[14] == Plus(s.r[15], 5)
  {
    hide Interp.Branch, Interp.LongOffset, Wrap, Plus;
    var middle := Interp.Branch(w, first, s, f).state;
    FirstHalf(w, first, s, f);
    SecondHalf(w, second, middle, f);
    CallArithmetic(s.r[15], middle.r[15], middle.r[14], Interp.LongOffset(first) * 0x1000, (second % 0x800) * 2);
    ReturnArithmetic(s.r[15], middle.r[15]);
  }

  // ----------------------------------------------------------------------------------------------
  // Literals folded to constants
  // ----------------------------------------------------------------------------------------------

  /** Memory as the interpreter reads it: 32 KiB pages, and a slow way for everything else. */
  datatype Pages = Pages(mapped: u32 -> bool, word: (u32, u32) -> u32, slow: u32 -> u32)

  /** A load of a word: the BIOS can be read only by code below 0x4000, and a page only where it is mapped and
      the address aligned. */
  function PagedLoad(m: Pages, pc: u32, address: u32): u32 {
    if (address / 0x1000000 == 0 && pc >= 0x4000) || address % 4 != 0 || !m.mapped(address / 0x8000) then
      m.slow(address)
    else m.word(address / 0x8000, address % 0x8000)
  }

  /** The address of a Thumb PC-relative literal, as the translator computes it. */
  function LiteralAddress(op: Interp.Opcode, pc: u32): u32 {
    Wrap(pc - 2 * (pc / 2 % 2) + (op % 0x100) * 4 + 4)
  }

  /** When the translator folds the load: only in ROM, and only within the 32 KiB page. */
  predicate FoldsLiteral(op: Interp.Opcode, pc: u32) {
    Plus(LiteralAddress(op, pc), 4) / 0x8000 == pc / 0x8000
  }

  /** The constant it is folded to, read from the page that is being translated. */
  function FoldedLiteral(m: Pages, op: Interp.Opcode, pc: u32): u32 {
    m.word(pc / 0x8000, LiteralAddress(op, pc) % 0x8000)
  }

  /** A folded literal lies in the page wholly, on a word boundary. */
  lemma LiteralInPage(op: Interp.Opcode, pc: u32)
    requires pc % 2 == 0 && pc < 0x10000000 && FoldsLiteral(op, pc)
    ensures var a := LiteralAddress(op, pc);
            a % 4 == 0 && a / 0x8000 == pc / 0x8000 && (a + 3) / 0x8000 == pc / 0x8000
  {
    var a := LiteralAddress(op, pc);
    LiteralIsAligned(op, pc);
    assert Plus(a, 4) == a + 4;
    SamePage(pc, a);
  }

  lemma LiteralIsAligned(op: Interp.Opcode, pc: u32)
    requires pc % 2 == 0 && pc < 0x10000000
    ensures LiteralAddress(op, pc) % 4 == 0 && pc <= LiteralAddress(op, pc) < pc + 0x500
  {
    var q, imm := pc / 4, op % 0x100;
    assert pc - 2 * (pc / 2 % 2) == 4 * q;
    assert LiteralAddress(op, pc) == 4 * (q + imm + 1);
  }

  lemma SamePage(pc: u32, a: u32)
    requires pc <= a && (a + 4) / 0x8000 == pc / 0x8000
    ensures a / 0x8000 == pc / 0x8000 && (a + 3) / 0x8000 == pc / 0x8000
  {
  }

  /** The address the interpreter loads from, its program counter having moved on and been moved back. */
  lemma AddressesAgree(op: Interp.Opcode, pc: u32)
    requires pc < 0x10000000
    ensures Plus(pc, 2) == pc + 2
    ensures var back := Wrap(Plus(pc, 2) - 2);
            Wrap(back - 2 * (back / 2 % 2) + Interp.Imm8(op) * 4 + 4) == LiteralAddress(op, pc)
  {
  }

  /** The interpreter's load through the program counter puts into the register exactly the constant that the
      translator folded it to, if the page is still what it was when it was translated. The exception is
      code at the very end of the BIOS: by the time it loads, its program counter is past the BIOS. */
  lemma FoldedLiteralIsTheLoadedWord(w: Interp.World<Pages>, old_: Pages, op: Interp.Opcode, s: Interp.Cpu<Pages>,
                                     f: Flags)
    requires 0x48 <= Interp.High(op) <= 0x4F && s.r[15] % 2 == 0 && s.r[15] < 0x10000000
    requires forall m: Pages, pc: u32, a: u32 :: w.load(m, pc, a) == PagedLoad(m, pc, a)
    requires FoldsLiteral(op, s.r[15])
    requires s.mem.mapped(s.r[15] / 0x8000)
    requires forall offset: u32 :: s.mem.word(s.r[15] / 0x8000, offset) == old_.word(s.r[15] / 0x8000, offset)
    ensures var a := LiteralAddress(op, s.r[15]);
            Interp.Execute(w, op, s, f) == Interp.Quiet(Interp.Advance(s, Interp.High(op) % 8,
              if a / 0x1000000 == 0 && s.r[15] + 2 >= 0x4000 then s.mem.slow(a) else FoldedLiteral(old_, op, s.r[15])))
  {
    var pc := s.r[15];
    var a := LiteralAddress(op, pc);
    LiteralInPage(op, pc);
    hide LiteralAddress, FoldsLiteral, PagedLoad;
    AddressesAgree(op, pc);
    assert Interp.Execute(w, op, s, f)
        == Interp.Quiet(Interp.Advance(s, Interp.High(op) % 8, PagedLoad(s.mem, pc + 2, a)));
  }
}
