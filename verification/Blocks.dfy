/** Translated blocks, as both translation caches hold them: code at an offset of a buffer, where each guest
    instruction starts in it, and its direct exits. */
module Blocks {
  import opened Basics
  import opened Word32
  import opened BlockScan
  import opened Emitter

  /** The region of guest memory that an address lies in, by its top byte. */
  function Region(pc: u32): int { pc / 0x1000000 }

  predicate IsRom(pc: u32) { Region(pc) == 0 || 8 <= Region(pc) <= 0xD }

  predicate IsRam(pc: u32) { Region(pc) == 2 || Region(pc) == 3 }

  /** The regions as address ranges. */
  lemma Regions(pc: u32)
    ensures IsRom(pc) <==> pc < 0x1000000 || 0x8000000 <= pc < 0xE000000
    ensures IsRam(pc) <==> 0x2000000 <= pc < 0x4000000
  {
  }

  /** `start` is where the instruction of the given width at `pc` starts. */
  predicate AlignsTo(start: u32, pc: u32, mode: Mode) {
    start <= pc < start + Width(mode) && if mode.Arm? then start % 4 == 0 else start % 2 == 0
  }

  lemma AlignedAlready(again: u32, start: u32, pc: u32, mode: Mode)
    requires AlignsTo(start, pc, mode) && AlignsTo(again, start, mode)
    ensures again == start
  {
  }

  lemma AlignDownAligns(pc: u32, mode: Mode)
    ensures AlignsTo(AlignDown(pc, Width(mode)), pc, mode)
  {
    hide AlignDown;
    if mode.Arm? {
      DownToWord(pc);
    } else {
      DownToHalf(pc);
    }
  }

  lemma DownToWord(x: u32)
    ensures AlignDown(x, 4) <= x < AlignDown(x, 4) + 4 && AlignDown(x, 4) % 4 == 0
  {
    assert AlignDown(x, 4) == 4 * (x / 4);
  }

  lemma DownToHalf(x: u32)
    ensures AlignDown(x, 2) <= x < AlignDown(x, 2) + 2 && AlignDown(x, 2) % 2 == 0
  {
    assert AlignDown(x, 2) == 2 * (x / 2);
  }

  /** What a lookup yields and what a branch is patched to: nothing, the address of all ones that stands for
      code outside every cached region, code at an offset of the cache, or code of the other cache. */
  datatype Target = Null | Unmapped | At(offset: nat) | Beyond(entry: nat)

  /** A direct exit: the emitted branch, and what it is patched to. */
  datatype Exit = Exit(branch: Branch, link: Target)

  /** A translated block: where its code lies, where each of its instructions starts, its exits. */
  datatype Block = Block(pc: u32, mode: Mode, endPc: u32, entry: nat, end: nat,
                         offsets: seq<nat>, exits: seq<Exit>)

  /** The software interrupt vector, whose exits go to the pre-translated BIOS entry. */
  const SWI_VECTOR: u32 := 8

  /** The instruction of the block at `pc` that a target inside it names. */
  function InstructionIndex(target: u32, pc: u32, mode: Mode): nat
    requires pc <= target
  {
    (target - pc) / Width(mode)
  }

  lemma {:induction false} PcAtBound(mode: Mode, start: u32, n: nat)
    ensures PcAt(mode, start, n) <= start + Width(mode) * n
    ensures start + Width(mode) * n < WORD ==> PcAt(mode, start, n) == start + Width(mode) * n
  {
    if n > 0 {
      PcAtBound(mode, start, n - 1);
    }
  }

  /** It is the one of the block's `n` instructions that covers the target. */
  lemma IndexIsSound(target: u32, pc: u32, mode: Mode, n: nat)
    requires pc <= target < PcAt(mode, pc, n)
    ensures var i := InstructionIndex(target, pc, mode);
            i < n && PcAt(mode, pc, i) <= target < PcAt(mode, pc, i) + Width(mode)
  {
    hide PcAt;
    PcAtBound(mode, pc, n);
    PcAtBound(mode, pc, (target - pc) / Width(mode));
  }

  lemma {:induction false} PcAtRises(mode: Mode, start: u32, n: nat)
    requires start + 4 * n < WORD
    ensures start <= PcAt(mode, start, n) <= start + 4 * n
  {
    if n > 0 {
      PcAtRises(mode, start, n - 1);
    }
  }

  lemma ExitIsDirect(g: Guest, mode: Mode, start: u32, i: nat)
    requires g.decoder == DECODER
    ensures var pc := PcAt(mode, start, i);
            ExitOf(g, mode, start, i) == DirectExit(mode, OpcodeAt(g, mode, pc), LastOpcode(g, mode, start, i), pc)
  {
    hide PcAt, OpcodeAt, LastOpcode;
  }

  lemma ArmBranchExits(op: u32, last: u32, pc: u32)
    requires ArmBranch(op)
    ensures DirectExit(Arm, op, last, pc).Some?
  {
    BranchesExit(op);
  }

  /** The target of the exit lies in the guest code of its own block. */
  predicate StaysInside(b: Block, e: Exit) { b.pc <= e.branch.target < b.endPc }

  /** The exit goes to the code of instruction `i`, the one that covers its target. */
  ghost predicate LandsOn(b: Block, e: Exit, i: nat) {
    && i < |b.offsets| && e.link == At(b.offsets[i])
    && PcAt(b.mode, b.pc, i) <= e.branch.target < PcAt(b.mode, b.pc, i) + Width(b.mode)
  }

  /** An exit that stays inside the block goes to the code of the instruction at its target. */
  ghost predicate InsideLinked(b: Block, e: Exit) {
    StaysInside(b, e) ==> exists i: nat :: LandsOn(b, e, i)
  }

  /** The instruction is at the target exactly, if the target is aligned as the block is. */
  lemma AlignedExitLandsOnTarget(b: Block, e: Exit)
    requires b.endPc == PcAt(b.mode, b.pc, |b.offsets|) && b.pc + Width(b.mode) * |b.offsets| < WORD
    requires StaysInside(b, e) && InsideLinked(b, e) && (e.branch.target - b.pc) % Width(b.mode) == 0
    ensures exists i: nat :: i < |b.offsets| && e.link == At(b.offsets[i]) && PcAt(b.mode, b.pc, i) == e.branch.target
  {
    hide PcAt;
    var i: nat :| LandsOn(b, e, i);
    PcAtBound(b.mode, b.pc, i);
  }

  ghost predicate ExitsInside(b: Block) {
    forall i | 0 <= i < |b.exits| :: b.entry <= b.exits[i].branch.lo < b.exits[i].branch.hi <= b.end
  }

  function BranchesOf(exits: seq<Exit>): seq<Branch> {
    seq(|exits|, i requires 0 <= i < |exits| => exits[i].branch)
  }

  /** The code of each instruction starts where the code of the one before it has ended, or later. */
  ghost predicate OffsetsRise(offsets: seq<nat>, entry: nat, end: nat) {
    && (forall i, j | 0 <= i < j < |offsets| :: offsets[i] <= offsets[j])
    && (forall i | 0 <= i < |offsets| :: entry <= offsets[i] <= end)
  }

  /** Where the code of instruction `i` ends at the latest. */
  function CodeEnd(offsets: seq<nat>, i: nat, end: nat): nat {
    if i + 1 < |offsets| then offsets[i + 1] else end
  }

  /** Each branch lies in the code of its own instruction. */
  ghost predicate InOwnCode(branches: seq<Branch>, offsets: seq<nat>, end: nat) {
    forall j | 0 <= j < |branches| ::
      var b := branches[j];
      b.insn < |offsets| && offsets[b.insn] <= b.lo < b.hi <= CodeEnd(offsets, b.insn, end)
  }

  /** How many of them. */
  function Count(emits: seq<bool>): (n: nat)
    ensures n <= |emits|
  {
    if emits == [] then 0 else Count(emits[..|emits| - 1]) + (if emits[|emits| - 1] then 1 else 0)
  }

  /** Which instructions of a scanned block have an exit that the translator emits a branch for. */
  function Emitting(g: Guest, mode: Mode, start: u32, s: Scanned): (r: seq<bool>)
    ensures |r| == |s.exits|
  {
    seq(|s.exits|, i requires 0 <= i < |s.exits| => Emits(g, mode, start, s, i))
  }

  /** The branches emitted, one for each of those instructions, in order. The n-th of them takes the n-th entry
      of the exit table, whichever instruction that was recorded for. */
  ghost predicate Numbered(branches: seq<Branch>, emits: seq<bool>, targets: seq<u32>) {
    && |branches| == Count(emits) <= |targets|
    && forall j | 0 <= j < |branches| ::
         var b := branches[j];
         b.target == targets[j] && b.insn < |emits| && emits[b.insn] && Count(emits[..b.insn]) == j
  }

  /** The block is the translation of this scan of guest code: it has a place for each instruction, and a branch
      for each exit that the translator emits, in order. */
  ghost predicate Translates(b: Block, s: Scanned, g: Guest) {
    && IsScanOf(s, g, b.mode, b.pc) && b.endPc == s.endPc
    && |b.offsets| == |s.exits| && OffsetsRise(b.offsets, b.entry, b.end)
    && InOwnCode(BranchesOf(b.exits), b.offsets, b.end)
    && Numbered(BranchesOf(b.exits), Emitting(g, b.mode, b.pc, s), s.targets)
  }

  ghost predicate IsTranslation(b: Block, g: Guest) {
    exists s: Scanned :: Translates(b, s, g)
  }

  /** The block apart from where its exits lead. */
  ghost predicate SameCode(b: Block, b': Block) {
    && b'.(exits := []) == b.(exits := [])
    && |b'.exits| == |b.exits|
    && forall i | 0 <= i < |b.exits| :: b'.exits[i].branch == b.exits[i].branch
  }

  lemma TranslationStays(b: Block, b': Block, s: Scanned, g: Guest)
    requires Translates(b, s, g) && SameCode(b, b')
    ensures Translates(b', s, g) && IsTranslation(b', g)
  {
    hide IsScanOf, OffsetsRise, InOwnCode, Numbered, Emitting;
    assert b'.(exits := []).mode == b.(exits := []).mode && b'.(exits := []).pc == b.(exits := []).pc;
    assert BranchesOf(b'.exits) == BranchesOf(b.exits);
  }

  lemma TargetAt(b: Block, s: Scanned, g: Guest, j: nat)
    requires Translates(b, s, g) && j < |b.exits|
    ensures b.exits[j].branch.target in s.targets && IsScanOf(s, g, b.mode, b.pc)
  {
    hide IsScanOf, OffsetsRise, InOwnCode, Emitting, Count;
    assert BranchesOf(b.exits)[j] == b.exits[j].branch;
  }

  /** Where the address of an instruction of a block can lie, if the block starts at `start`. */
  lemma TargetIsExit(s: Scanned, g: Guest, mode: Mode, start: u32, t: u32) returns (i: nat)
    requires IsScanOf(s, g, mode, start) && t in s.targets
    ensures i < MAX_BLOCK_SIZE && ExitOf(g, mode, start, i) == Some(t)
  {
    DirectMember(s.exits, t);
    i :| 0 <= i < |s.exits| && s.exits[i] == Some(t);
  }

  lemma ExitsOfScan(s: Scanned, g: Guest, mode: Mode, start: u32)
    requires IsScanOf(s, g, mode, start)
    ensures s.targets == Direct(s.exits) && 1 <= |s.exits| <= MAX_BLOCK_SIZE
    ensures s.endPc == PcAt(mode, start, |s.exits|)
  {
  }

  /** Exits inside the block are patched, and those that lead out of it are not yet. */
  ghost predicate ToPatch(b: Block) {
    forall i | 0 <= i < |b.exits| ::
      InsideLinked(b, b.exits[i]) && (!StaysInside(b, b.exits[i]) ==> b.exits[i].link == Null)
  }

  /** Patches the exits that stay inside the block to the code of the instruction at their target. */
  method PatchInternal(b: Block) returns (r: Block)
    requires b.endPc == PcAt(b.mode, b.pc, |b.offsets|)
    requires forall i | 0 <= i < |b.exits| :: b.exits[i].link == Null
    ensures SameCode(b, r) && ToPatch(r)
  {
    hide PcAt, InstructionIndex;
    r := b;
    var i := 0;
    while i < |b.exits|
      invariant 0 <= i <= |b.exits| && SameCode(b, r) && SamePlan(b, r)
      invariant forall k | 0 <= k < i ::
                  InsideLinked(r, r.exits[k]) && (!StaysInside(r, r.exits[k]) ==> r.exits[k].link == Null)
      invariant forall k | i <= k < |b.exits| :: r.exits[k] == b.exits[k]
    {
      var e, before := b.exits[i], r;
      if StaysInside(b, e) {
        IndexIsSound(e.branch.target, b.pc, b.mode, |b.offsets|);
        var n := InstructionIndex(e.branch.target, b.pc, b.mode);
        var patched := e.(link := At(b.offsets[n]));
        r := r.(exits := r.exits[i := patched]);
        assert LandsOn(r, patched, n);
        forall k | 0 <= k < i
          ensures InsideLinked(r, r.exits[k])
        {
          StillLands(before, r, r.exits[k]);
        }
      }
      i := i + 1;
    }
  }

  /** The blocks have the same instructions in the same places. */
  predicate SamePlan(b: Block, b': Block) {
    b'.pc == b.pc && b'.mode == b.mode && b'.endPc == b.endPc && b'.offsets == b.offsets
  }

  lemma CodeHasPlan(b: Block, b': Block)
    requires SameCode(b, b')
    ensures SamePlan(b, b')
  {
    assert b'.(exits := []).mode == b.(exits := []).mode && b'.(exits := []).pc == b.(exits := []).pc;
    assert b'.(exits := []).endPc == b.(exits := []).endPc && b'.(exits := []).offsets == b.(exits := []).offsets;
  }

  /** An exit lands where it did, whatever becomes of the others. */
  lemma StillLands(b: Block, b': Block, e: Exit)
    requires SamePlan(b, b')
    ensures StaysInside(b', e) == StaysInside(b, e)
    ensures InsideLinked(b, e) ==> InsideLinked(b', e)
  {
    hide PcAt;
    if StaysInside(b, e) && InsideLinked(b, e) {
      var i: nat :| LandsOn(b, e, i);
      assert LandsOn(b', e, i);
    }
  }

  // ----------------------------------------------------------------------------------------------
  // Which exit a branch gets
  // ----------------------------------------------------------------------------------------------

  lemma {:induction false} CountOne(emits: seq<bool>, i: nat)
    requires i < |emits|
    ensures Count(emits[..i + 1]) == Count(emits[..i]) + (if emits[i] then 1 else 0)
  {
    assert emits[..i + 1][..i] == emits[..i];
  }

  lemma {:induction false} CountRises(emits: seq<bool>, i: nat, j: nat)
    requires i <= j <= |emits|
    ensures Count(emits[..i]) <= Count(emits[..j])
    ensures i < j && emits[i] ==> Count(emits[..i]) < Count(emits[..j])
    decreases j - i
  {
    if i < j {
      CountOne(emits, i);
      CountRises(emits, i + 1, j);
    }
  }

  /** Every emitted branch has an entry in the exit table. */
  ghost predicate Recorded(emits: seq<bool>, exits: seq<Option<u32>>) {
    |emits| == |exits| && forall i | 0 <= i < |emits| && emits[i] :: exits[i].Some?
  }

  lemma EmittingRecorded(g: Guest, mode: Mode, start: u32, s: Scanned)
    ensures Recorded(Emitting(g, mode, start, s), s.exits)
  {
  }

  lemma DirectOne(exits: seq<Option<u32>>, i: nat)
    requires i < |exits|
    ensures Direct(exits[..i + 1]) == Direct(exits[..i]) + (if exits[i].Some? then [exits[i].value] else [])
  {
    DirectAppend(exits[..i], exits[i]);
    assert exits[..i + 1] == exits[..i] + [exits[i]];
  }

  lemma {:induction false} DirectPrefix(exits: seq<Option<u32>>, n: nat)
    requires n <= |exits|
    ensures Direct(exits[..n]) <= Direct(exits)
    decreases |exits| - n
  {
    if n < |exits| {
      DirectOne(exits, n);
      DirectPrefix(exits, n + 1);
    } else {
      assert exits[..n] == exits;
    }
  }

  /** The exit counter never runs ahead of the recorded exits, and keeps up with them exactly as long as no
      exit is passed over. */
  lemma {:induction false} CounterKeepsUpIff(emits: seq<bool>, exits: seq<Option<u32>>, n: nat)
    requires Recorded(emits, exits) && n <= |exits|
    ensures Count(emits[..n]) <= |Direct(exits[..n])|
    ensures Count(emits[..n]) == |Direct(exits[..n])| <==> forall i | 0 <= i < n && exits[i].Some? :: emits[i]
  {
    if n > 0 {
      CounterKeepsUpIff(emits, exits, n - 1);
      CountOne(emits, n - 1);
      DirectOne(exits, n - 1);
    }
  }

  lemma TableIsLongEnough(emits: seq<bool>, exits: seq<Option<u32>>, n: nat)
    requires Recorded(emits, exits) && n < |exits| && emits[n]
    ensures Count(emits[..n]) < |Direct(exits)|
  {
    hide Direct;
    CounterKeepsUpIff(emits, exits, n);
    DirectOne(exits, n);
    DirectPrefix(exits, n + 1);
  }

  /** A branch takes the entry that was recorded for its own instruction if and only if no exit before it was
      passed over; otherwise it takes the one of an earlier instruction. */
  lemma BranchTakesOwnEntryIff(b: Block, s: Scanned, g: Guest, j: nat)
    requires Translates(b, s, g) && j < |b.exits|
    ensures var br := b.exits[j].branch;
            && br.insn < |s.exits|
            && (j == |Direct(s.exits[..br.insn])| <==>
                  forall i | 0 <= i < br.insn && s.exits[i].Some? :: Emits(g, b.mode, b.pc, s, i))
            && (if j == |Direct(s.exits[..br.insn])| then s.exits[br.insn] == Some(br.target)
                else exists i | 0 <= i < br.insn :: s.exits[i] == Some(br.target))
  {
    hide OffsetsRise, InOwnCode, Direct, Count;
    var br, emits := b.exits[j].branch, Emitting(g, b.mode, b.pc, s);
    assert BranchesOf(b.exits)[j] == br;
    EmittingRecorded(g, b.mode, b.pc, s);
    CounterKeepsUpIff(emits, s.exits, br.insn);
    DirectOne(s.exits, br.insn);
    DirectPrefix(s.exits, br.insn + 1);
    DirectPrefix(s.exits, br.insn);
    if j < |Direct(s.exits[..br.insn])| {
      assert Direct(s.exits[..br.insn])[j] == br.target;
      DirectMember(s.exits[..br.insn], br.target);
      var i :| 0 <= i < br.insn && s.exits[..br.insn][i] == Some(br.target);
      assert s.exits[i] == Some(br.target);
    }
  }

  /** Every direct exit of the scanned code has a branch of its own, to its own target. */
  ghost predicate ExitsCovered(b: Block, s: Scanned) {
    forall i | 0 <= i < |s.exits| && s.exits[i].Some? :: Covered(b, s.exits[i], i)
  }

  ghost predicate Covered(b: Block, exit: Option<u32>, i: nat) {
    exists j | 0 <= j < |b.exits| :: b.exits[j].branch.insn == i && Some(b.exits[j].branch.target) == exit
  }

  lemma ExitsCoveredIff(b: Block, s: Scanned, g: Guest)
    requires Translates(b, s, g)
    ensures ExitsCovered(b, s) <==>
            forall i | 0 <= i < |s.exits| && s.exits[i].Some? :: Emits(g, b.mode, b.pc, s, i)
  {
    hide OffsetsRise, InOwnCode, Direct, Count, IsScanOf;
    var emits := Emitting(g, b.mode, b.pc, s);
    forall i | 0 <= i < |s.exits| && s.exits[i].Some?
      ensures Covered(b, s.exits[i], i) ==> Emits(g, b.mode, b.pc, s, i)
    {
      if Covered(b, s.exits[i], i) {
        var j :| 0 <= j < |b.exits| && b.exits[j].branch.insn == i;
        assert BranchesOf(b.exits)[j].insn == i;
      }
    }
    if forall i | 0 <= i < |s.exits| && s.exits[i].Some? :: Emits(g, b.mode, b.pc, s, i) {
      forall i | 0 <= i < |s.exits| && s.exits[i].Some?
        ensures Covered(b, s.exits[i], i)
      {
        var j := BranchOf(b, s, g, i);
        BranchTakesOwnEntryIff(b, s, g, j);
      }
    }
  }

  lemma BranchOf(b: Block, s: Scanned, g: Guest, i: nat) returns (j: nat)
    requires Translates(b, s, g) && i < |s.exits| && Emits(g, b.mode, b.pc, s, i)
    ensures j < |b.exits| && b.exits[j].branch.insn == i
  {
    hide OffsetsRise, InOwnCode, IsScanOf, Count;
    var emits := Emitting(g, b.mode, b.pc, s);
    j := Count(emits[..i]);
    CountRises(emits, i, |emits|);
    assert emits[..|emits|] == emits;
    var br := BranchesOf(b.exits)[j];
    assert br == b.exits[j].branch;
    if br.insn < i {
      CountRises(emits, br.insn, i);
    } else {
      CountRises(emits, i, br.insn);
    }
  }

  /** Instruction `i` of a block is one that the translator has no case for. */
  predicate SkippedAt(g: Guest, mode: Mode, start: u32, i: nat) {
    Skipped(mode, OpcodeAt(g, mode, PcAt(mode, start, i)))
  }

  /** In the emulator: every direct exit of a block has its own branch exactly if none of its opcodes is of the
      row that the translator has no case for. */
  lemma ExitsCoveredUnlessSkipped(b: Block, s: Scanned, g: Guest)
    requires g.decoder == DECODER && Translates(b, s, g)
    ensures ExitsCovered(b, s) <==> forall i | 0 <= i < |s.exits| :: !SkippedAt(g, b.mode, b.pc, i)
  {
    hide Translates, ExitsCovered, IsScanOf, SkippedAt, Emits;
    ItsScan(b, s, g);
    ExitsCoveredIff(b, s, g);
    forall i | 0 <= i < |s.exits|
      ensures SkippedAt(g, b.mode, b.pc, i) <==> s.exits[i].Some? && !Emits(g, b.mode, b.pc, s, i)
    {
      SkippedIsPassedOver(g, b.mode, b.pc, s, i);
    }
  }

  lemma SkippedIsPassedOver(g: Guest, mode: Mode, start: u32, s: Scanned, i: nat)
    requires g.decoder == DECODER && IsScanOf(s, g, mode, start) && i < |s.exits|
    ensures SkippedAt(g, mode, start, i) <==> s.exits[i].Some? && !Emits(g, mode, start, s, i)
  {
    hide PcAt, OpcodeAt, DirectExit, IsScanOf;
    ScanMatches(s, g, mode, start, i);
    ExitIsDirect(g, mode, start, i);
    SkippedHasExit(mode, OpcodeAt(g, mode, PcAt(mode, start, i)), LastOpcode(g, mode, start, i), PcAt(mode, start, i));
  }

  lemma ItsScan(b: Block, s: Scanned, g: Guest)
    requires Translates(b, s, g)
    ensures IsScanOf(s, g, b.mode, b.pc)
  {
  }

  lemma SkippedHasExit(mode: Mode, op: u32, last: u32, pc: u32)
    ensures Skipped(mode, op) ==> DirectExit(mode, op, last, pc).Some?
  {
  }

  // ----------------------------------------------------------------------------------------------
  // Emitting a block
  // ----------------------------------------------------------------------------------------------

  /** The code of the first `n` instructions lies in [entry, end), one after another, with their branches. */
  ghost predicate EmittedSoFar(offsets: seq<nat>, branches: seq<Branch>, emits: seq<bool>, targets: seq<u32>, n: nat,
                               entry: nat, end: nat)
  {
    && n == |offsets| <= |emits| && entry <= end
    && OffsetsRise(offsets, entry, end) && InOwnCode(branches, offsets, end)
    && Numbered(branches, emits[..n], targets)
  }

  lemma NothingEmitted(emits: seq<bool>, targets: seq<u32>, entry: nat, at: nat)
    requires entry <= at
    ensures EmittedSoFar([], [], emits, targets, 0, entry, at)
  {
  }

  /** Emits instruction `n` of a block. The exit counter is the number of branches emitted so far. */
  method EmitNext(e: Bounds, emits: seq<bool>, targets: seq<u32>, ghost exits: seq<Option<u32>>, n: nat,
                  offsets: seq<nat>, branches: seq<Branch>, ghost entry: nat, at: nat, ghost limit: int)
    returns (offsets': seq<nat>, branches': seq<Branch>, end: nat)
    requires EmittedSoFar(offsets, branches, emits, targets, n, entry, at) && n < |emits|
    requires Recorded(emits, exits) && targets == Direct(exits)
    requires e.Consistent() && at + e.insnMax <= limit
    ensures at <= end <= at + e.insnMax && end <= limit
    ensures EmittedSoFar(offsets', branches', emits, targets, n + 1, entry, end)
  {
    hide Direct, Count;
    var position := |branches|;
    var target := None;
    if emits[n] {
      TableIsLongEnough(emits, exits, n);
      target := Some(targets[position]);
    }
    var more;
    end, more := EmitInsn(e, target, n, at, limit);
    offsets', branches' := offsets + [at], branches + more;
    NumberedMore(branches, more, emits, targets, n);
  }

  lemma NumberedMore(branches: seq<Branch>, more: seq<Branch>, emits: seq<bool>, targets: seq<u32>, n: nat)
    requires n < |emits| && Numbered(branches, emits[..n], targets)
    requires if emits[n] then |branches| < |targets| && |more| == 1 && more[0].target == targets[|branches|] &&
                              more[0].insn == n
             else more == []
    ensures Numbered(branches + more, emits[..n + 1], targets)
  {
    hide Count;
    CountOne(emits, n);
    forall j | 0 <= j < |branches + more|
      ensures var b := (branches + more)[j];
              b.target == targets[j] && b.insn < n + 1 && emits[b.insn] && Count(emits[..n + 1][..b.insn]) == j
    {
      var b := (branches + more)[j];
      assert emits[..n + 1][..b.insn] == emits[..b.insn];
      assert j < |branches| ==> emits[..n][..b.insn] == emits[..b.insn];
    }
  }

  /** Emits the cycle update before instruction `n`, if there is one. */
  method EmitGap(e: Bounds, ghost emits: seq<bool>, ghost targets: seq<u32>, n: nat, ghost offsets: seq<nat>,
                 ghost branches: seq<Branch>, ghost entry: nat, at: nat, ghost limit: int) returns (end: nat)
    requires EmittedSoFar(offsets, branches, emits, targets, n, entry, at) && at + e.updateMax <= limit
    ensures at <= end <= at + e.updateMax && end <= limit
    ensures EmittedSoFar(offsets, branches, emits, targets, n, entry, end)
  {
    hide Numbered;
    end := EmitUpdate(e, at, limit);
  }

  /** A block as emitted: a place for every instruction, and no exit patched yet. */
  ghost predicate Fresh(b: Block, pc: u32, mode: Mode, s: Scanned, emits: seq<bool>, entry: nat) {
    && b.pc == pc && b.mode == mode && b.endPc == s.endPc && b.entry == entry < b.end
    && |b.offsets| == |s.exits| && OffsetsRise(b.offsets, b.entry, b.end)
    && InOwnCode(BranchesOf(b.exits), b.offsets, b.end)
    && Numbered(BranchesOf(b.exits), emits, s.targets) && ExitsInside(b)
    && forall i | 0 <= i < |b.exits| :: b.exits[i].link == Null
  }

  /** Emits the gate that ends the block. */
  method EmitEnd(e: Bounds, pc: u32, mode: Mode, s: Scanned, ghost emits: seq<bool>, offsets: seq<nat>,
                 branches: seq<Branch>, entry: nat, at: nat, ghost limit: int) returns (b: Block)
    requires EmittedSoFar(offsets, branches, emits, s.targets, |s.exits|, entry, at) && |emits| == |s.exits|
    requires e.Consistent() && at + e.gateMax <= limit
    ensures Fresh(b, pc, mode, s, emits, entry) && at + e.gateMin <= b.end <= at + e.gateMax
  {
    hide Numbered;
    var end := EmitGate(e, at, limit);
    var exits := seq(|branches|, k requires 0 <= k < |branches| => Exit(branches[k], Null));
    assert BranchesOf(exits) == branches && emits[..|emits|] == emits;
    b := Block(pc, mode, s.endPc, entry, end, offsets, exits);
    forall k | 0 <= k < |b.exits|
      ensures b.entry <= b.exits[k].branch.lo < b.exits[k].branch.hi <= b.end
    {
      assert b.exits[k].branch == branches[k];
    }
  }
}
