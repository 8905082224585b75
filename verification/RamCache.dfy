/** The RAM translation cache: code grows up from the start of a buffer, the table of translated
    blocks grows down from its end, and 16-bit tags in a mirror of each RAM region say which halfwords
    of guest memory hold code. */
module RamCache {
  import opened Basics
  import opened Word32
  import opened BlockScan
  import Interp = ThumbFlags
  import opened Emitter
  import opened Blocks
  import opened RamTags

  /** A lookup in the other cache, for code at an address. */
  datatype Question = Question(target: u32, mode: Mode)

  /** What a lookup in the other cache comes to: the lookups for code in RAM that it makes on the way, and the entry
      of the code, unless it fails by itself. */
  datatype Outcome = Outcome(visits: seq<Question>, entry: Option<nat>)

  /** How guest addresses map to halfwords of RAM, and what the n-th lookup in the other cache comes to. */
  datatype RamView = RamView(isRam: u32 -> bool, isRom: u32 -> bool, align: (u32, Mode) -> u32, place: u32 -> Loc,
                             elsewhere: (nat, Question) -> Outcome)

  function Place(pc: u32): Loc {
    if pc >= 0x3000000 then Loc(false, pc % IWRAM_SIZE / 2) else Loc(true, pc % EWRAM_SIZE / 2)
  }

  function ViewBeside(elsewhere: (nat, Question) -> Outcome): RamView {
    RamView(
      (pc: u32) => IsRam(pc),
      (pc: u32) => IsRom(pc),
      (pc: u32, mode: Mode) => AlignDown(pc, Width(mode)),
      (pc: u32) => Place(pc),
      elsewhere)
  }

  /** Another cache in which every lookup fails. */
  const NOWHERE := (n: nat, q: Question) => Outcome([], None)

  const RAM_VIEW := ViewBeside(NOWHERE)

  /** All lookups in the other cache from the n-th on have found code. */
  ghost predicate AllAnswered(v: RamView, asked: seq<Question>, n: nat) {
    forall k | n <= k < |asked| :: v.elsewhere(k, asked[k]).entry.Some?
  }

  lemma AnsweredInTurn(v: RamView, asked: seq<Question>, asked': seq<Question>, n: nat)
    requires asked <= asked' && n <= |asked|
    ensures AllAnswered(v, asked', n) <==> AllAnswered(v, asked, n) && AllAnswered(v, asked', |asked|)
  {
    assert forall k | 0 <= k < |asked| :: asked'[k] == asked[k];
  }

  ghost predicate AllTagged(v: RamView, iwram: seq<nat>, ewram: seq<nat>, pc: u32, mode: Mode, count: nat) {
    forall k | 0 <= k < count :: Tagged(iwram, ewram, v.place(v.align(PcAt(mode, pc, k), mode)), mode)
  }

  lemma AllStayTagged(v: RamView, iwram: seq<nat>, ewram: seq<nat>, iwram': seq<nat>, ewram': seq<nat>,
                      pc: u32, mode: Mode, count: nat)
    requires AllTagged(v, iwram, ewram, pc, mode, count)
    requires KeptTags(iwram, iwram') && KeptTags(ewram, ewram')
    ensures AllTagged(v, iwram', ewram', pc, mode, count)
  {
    forall k | 0 <= k < count
      ensures Tagged(iwram', ewram', v.place(v.align(PcAt(mode, pc, k), mode)), mode)
    {
      assert Tagged(iwram, ewram, v.place(v.align(PcAt(mode, pc, k), mode)), mode);
    }
  }

  /** Both addresses are of the same halfword of RAM: a region repeats throughout its range of addresses, external
      RAM every 256 KiB and internal RAM every 32 KiB. */
  predicate Mirrors(p: u32, q: u32) {
    Region(p) == Region(q) && if Region(p) == 2 then (p / 2 - q / 2) % 0x20000 == 0 else (p / 2 - q / 2) % 0x4000 == 0
  }

  /** The halfword at an address, by its distance from the start of the region. */
  predicate PlacedAt(l: Loc, pc: u32) {
    && (l.inEwram <==> Region(pc) == 2)
    && 2 * l.i <= (if Region(pc) == 2 then pc % 0x40000 else pc % 0x8000) < 2 * l.i + 2
  }

  ghost predicate Sound(v: RamView) {
    && (forall pc, mode :: v.isRam(pc) ==> v.isRam(v.align(pc, mode)))
    && (forall pc, mode :: AlignsTo(v.align(pc, mode), pc, mode))
    && (forall pc: u32 :: v.isRam(pc) <==> 0x2000000 <= pc < 0x4000000)
    && (forall pc: u32 :: v.isRom(pc) <==> pc < 0x1000000 || 0x8000000 <= pc < 0xE000000)
    && (forall pc :: v.isRam(pc) ==> PlacedAt(v.place(pc), pc))
    && (forall pc :: v.place(pc).i * 2 < if v.place(pc).inEwram then EWRAM_SIZE else IWRAM_SIZE)
    && (forall pc :: var l := v.place(v.align(pc, Arm)); l.i * 2 + 2 < if l.inEwram then EWRAM_SIZE else IWRAM_SIZE)
  }

  /** Addresses of RAM have the same tag exactly if they are of the same halfword. */
  lemma SamePlaceIff(v: RamView, p: u32, q: u32)
    requires Sound(v) && v.isRam(p) && v.isRam(q)
    ensures v.place(p) == v.place(q) <==> Mirrors(p, q)
  {
    hide PlacedAt, Mirrors, IsRam, AlignsTo;
    assert PlacedAt(v.place(p), p) && PlacedAt(v.place(q), q);
    SamePlacedIff(v.place(p), p, v.place(q), q);
  }

  lemma SamePlacedIff(l: Loc, p: u32, m: Loc, q: u32)
    requires PlacedAt(l, p) && PlacedAt(m, q) && 0x2000000 <= p < 0x4000000 && 0x2000000 <= q < 0x4000000
    ensures l == m <==> Mirrors(p, q)
  {
    ExternalHalfword(p);
    ExternalHalfword(q);
    InternalHalfword(p);
    InternalHalfword(q);
    SameExternalRest(p / 2, q / 2);
    SameInternalRest(p / 2, q / 2);
    RamRegions(p);
    RamRegions(q);
    hide Region;
  }

  lemma RamRegions(pc: u32)
    requires 0x2000000 <= pc < 0x4000000
    ensures Region(pc) == if pc < 0x3000000 then 2 else 3
  {
  }

  lemma ExternalHalfword(pc: u32)
    ensures 2 * (pc / 2 % 0x20000) <= pc % 0x40000 < 2 * (pc / 2 % 0x20000) + 2
  {
    var k := pc / 0x40000;
    assert pc / 2 == 0x20000 * k + pc % 0x40000 / 2;
  }

  lemma InternalHalfword(pc: u32)
    ensures 2 * (pc / 2 % 0x4000) <= pc % 0x8000 < 2 * (pc / 2 % 0x4000) + 2
  {
    var k := pc / 0x8000;
    assert pc / 2 == 0x4000 * k + pc % 0x8000 / 2;
  }

  lemma SameExternalRest(m: nat, n: nat)
    ensures m % 0x20000 == n % 0x20000 <==> (m - n) % 0x20000 == 0
  {
    var j, k := m / 0x20000, n / 0x20000;
    assert m - n == 0x20000 * (j - k) + (m % 0x20000 - n % 0x20000);
  }

  lemma SameInternalRest(m: nat, n: nat)
    ensures m % 0x4000 == n % 0x4000 <==> (m - n) % 0x4000 == 0
  {
    var j, k := m / 0x4000, n / 0x4000;
    assert m - n == 0x4000 * (j - k) + (m % 0x4000 - n % 0x4000);
  }

  lemma PlaceIsAt(pc: u32)
    requires IsRam(pc)
    ensures PlacedAt(Place(pc), pc)
  {
    Regions(pc);
  }

  lemma PlacedInRange(v: RamView, pc: u32, mode: Mode)
    requires Sound(v)
    ensures var l := v.place(v.align(pc, mode));
            l.i * 2 + (if mode.Arm? then 2 else 0) < if l.inEwram then EWRAM_SIZE else IWRAM_SIZE
  {
  }

  lemma AlignedOffsets(q: nat)
    ensures 4 * q % IWRAM_SIZE == 4 * (q % 0x2000) && 4 * q % EWRAM_SIZE == 4 * (q % 0x10000)
  {
  }

  lemma AlignStaysInRam(pc: u32, mode: Mode)
    requires IsRam(pc)
    ensures IsRam(AlignDown(pc, Width(mode)))
  {
    assert 0x2000000 <= pc < 0x4000000;
    assert AlignDown(pc, 4) == 4 * (pc / 4) && AlignDown(pc, 2) == 2 * (pc / 2);
    assert 0x2000000 <= AlignDown(pc, Width(mode)) < 0x4000000;
  }

  lemma RamViewIsSound(elsewhere: (nat, Question) -> Outcome)
    ensures Sound(ViewBeside(elsewhere))
  {
    forall pc: u32, mode
      ensures (IsRam(pc) ==> IsRam(AlignDown(pc, Width(mode)))) && AlignsTo(AlignDown(pc, Width(mode)), pc, mode)
    {
      AlignDownAligns(pc, mode);
      if IsRam(pc) {
        AlignStaysInRam(pc, mode);
      }
    }
    forall pc: u32
      ensures IsRom(pc) <==> pc < 0x1000000 || 0x8000000 <= pc < 0xE000000
      ensures IsRam(pc) <==> 0x2000000 <= pc < 0x4000000
      ensures IsRam(pc) ==> PlacedAt(Place(pc), pc)
    {
      Regions(pc);
      if IsRam(pc) {
        PlaceIsAt(pc);
      }
    }
    forall pc: u32
      ensures var l := Place(AlignDown(pc, 4)); l.i * 2 + 2 < if l.inEwram then EWRAM_SIZE else IWRAM_SIZE
    {
      assert AlignDown(pc, 4) == 4 * (pc / 4);
      AlignedOffsets(pc / 4);
    }
  }

  // ----------------------------------------------------------------------------------------------
  // Direct exits of RAM code
  // ----------------------------------------------------------------------------------------------

  /** The direct exit leads to the other cache, and not to the BIOS entry, which is always there. */
  ghost predicate LeadsToRom(g: Guest, v: RamView, mode: Mode, start: u32, i: nat) {
    var exit := ExitOf(g, mode, start, i);
    exit.Some? && v.isRom(exit.value) && exit.value != SWI_VECTOR
  }

  /** No direct exit of a block translated from RAM leads to ROM. */
  ghost predicate KeepsOutOfRom(g: Guest, v: RamView) {
    forall mode: Mode, start: u32, i: nat :: i < MAX_BLOCK_SIZE && v.isRam(start) ==> !LeadsToRom(g, v, mode, start, i)
  }

  lemma ExitOutOfRom(g: Guest, v: RamView, mode: Mode, pc: u32, s: Scanned, t: u32)
    requires KeepsOutOfRom(g, v) && v.isRam(pc) && IsScanOf(s, g, mode, pc) && t in s.targets
    ensures v.isRom(t) ==> t == SWI_VECTOR
  {
    var i := TargetIsExit(s, g, mode, pc, t);
    assert !LeadsToRom(g, v, mode, pc, i);
  }

  /** An ARM branch that reaches back into the BIOS region, which takes nearly its full distance. */
  predicate ReachesBios(op: u32, pc: u32) {
    ArmBranch(op) && pc + 8 + ArmOffset(op) < 0x1000000 && pc + 8 + ArmOffset(op) != SWI_VECTOR
  }

  lemma NearTarget(pc: u32, distance: int)
    requires 0x2000000 <= pc < 0x4001002 && -0x2000000 <= distance <= 0x2000004
    ensures Wrap(pc + distance) == pc + distance && (IsRom(pc + distance) <==> pc + distance < 0x1000000)
  {
  }

  /** A Thumb branch goes less than 8 MiB away. */
  lemma ThumbStaysNear(op: Interp.Opcode, last: Interp.Opcode, next: u32)
    requires ThumbBranch(op) && ThumbTarget(op, last, next).Some? && 0x2000000 <= next < 0x4001002
    ensures !IsRom(ThumbTarget(op, last, next).value)
  {
    var distance := if op < 0xE000 then 2 + Interp.ShortOffset(op)
                    else if op < 0xF800 then 2 + 2 * Interp.LongOffset(op)
                    else Interp.LongOffset(last) * 0x1000 + (op % 0x800) * 2;
    assert -0x800000 <= distance <= 0x800000;
    NearTarget(next, distance);
  }

  /** Among all direct exits of code that lies in a RAM block, only an ARM branch over nearly its full distance
      leads to ROM, and only to the BIOS region: RAM code never branches directly to the cartridge. */
  lemma OnlyFarBranchesLeadToRom(mode: Mode, op: u32, last: u32, pc: u32)
    requires 0x2000000 <= pc < 0x4001000 && DirectExit(mode, op, last, pc).Some?
    ensures var t := DirectExit(mode, op, last, pc).value;
            IsRom(t) && t != SWI_VECTOR <==> mode.Arm? && ReachesBios(op, pc)
  {
    if mode.Arm? {
      var offset := ArmOffset(op);
      assert -0x2000000 <= offset <= 0x1FFFFFC;
      if ArmBranch(op) {
        NearTarget(pc, 8 + offset);
      }
    } else if ThumbBranch(op) {
      ThumbStaysNear(op, last % 0x10000, Plus(pc, 2));
    }
  }

  /** The guest's RAM code keeps out of ROM exactly when none of its ARM branches reaches back to the BIOS. */
  lemma OnlyBranchesToTheBiosMatter(g: Guest)
    requires g.decoder == DECODER
    ensures KeepsOutOfRom(g, RAM_VIEW) <==>
            forall start: u32, i: nat | i < MAX_BLOCK_SIZE && IsRam(start) :: !RamReachesBios(g, start, i)
  {
    hide LeadsToRom, RamReachesBios;
    if KeepsOutOfRom(g, RAM_VIEW) {
      forall start: u32, i: nat | i < MAX_BLOCK_SIZE && IsRam(start)
        ensures !RamReachesBios(g, start, i)
      {
        LeadsToRomIff(g, Arm, start, i);
        assert RAM_VIEW.isRam(start) && !LeadsToRom(g, RAM_VIEW, Arm, start, i);
      }
    }
    if forall start: u32, i: nat | i < MAX_BLOCK_SIZE && IsRam(start) :: !RamReachesBios(g, start, i) {
      forall mode: Mode, start: u32, i: nat | i < MAX_BLOCK_SIZE && RAM_VIEW.isRam(start)
        ensures !LeadsToRom(g, RAM_VIEW, mode, start, i)
      {
        LeadsToRomIff(g, mode, start, i);
      }
    }
  }

  predicate RamReachesBios(g: Guest, start: u32, i: nat) {
    ReachesBios(OpcodeAt(g, Arm, PcAt(Arm, start, i)), PcAt(Arm, start, i))
  }

  lemma LeadsToRomIff(g: Guest, mode: Mode, start: u32, i: nat)
    requires g.decoder == DECODER && IsRam(start) && i < MAX_BLOCK_SIZE
    ensures LeadsToRom(g, RAM_VIEW, mode, start, i) <==> mode.Arm? && RamReachesBios(g, start, i)
  {
    hide DirectExit, ArmBranch, ArmOffset, DECODER;
    var pc := PcAt(mode, start, i);
    var op, last := OpcodeAt(g, mode, pc), LastOpcode(g, mode, start, i);
    PcAtRises(mode, start, i);
    ExitIsDirect(g, mode, start, i);
    if DirectExit(mode, op, last, pc).Some? {
      OnlyFarBranchesLeadToRom(mode, op, last, pc);
    } else if mode.Arm? && ArmBranch(op) {
      ArmBranchExits(op, last, pc);
    }
  }

  // ----------------------------------------------------------------------------------------------
  // Blocks and the entries that name them
  // ----------------------------------------------------------------------------------------------

  /** The block is the code of one instruction set for a halfword of RAM. All mirrors of a region share it. */
  ghost predicate Starts(b: Block, l: Loc, mode: Mode, v: RamView) {
    b.mode == mode && v.isRam(b.pc) && v.align(b.pc, b.mode) == b.pc && v.place(b.pc) == l
  }

  /** The block starts at the aligned address, or at a mirror of it. */
  ghost predicate IsFor(b: Block, pc: u32, mode: Mode, v: RamView) {
    b.mode == mode && v.align(b.pc, mode) == b.pc && Mirrors(b.pc, v.align(pc, mode))
  }

  /** A block for the halfword of an address is one for the address. */
  lemma StartsIsFor(b: Block, pc: u32, mode: Mode, v: RamView)
    requires Sound(v) && v.isRam(pc) && Starts(b, v.place(v.align(pc, mode)), mode, v)
    ensures IsFor(b, pc, mode, v)
  {
    hide Mirrors, PlacedAt;
    SamePlaceIff(v, b.pc, v.align(pc, mode));
  }

  /** Where a correctly patched exit out of a block leads: to the BIOS entry, a block of RAM for the same
      halfword, the entry that the other cache has given for it, or the all-ones address. */
  ghost predicate LeadsOut(t: u32, mode: Mode, link: Target, code: map<nat, Block>, v: RamView, bios: Target) {
    if t == SWI_VECTOR then link == bios
    else if v.isRam(t) then
      link.At? && link.offset in code && Starts(code[link.offset], v.place(v.align(t, mode)), mode, v)
    else if v.isRom(t) then link.Beyond? && IsAnswer(v, Question(t, mode), link.entry)
    else link == Unmapped
  }

  /** The other cache has given this entry for this code, at some time. */
  ghost predicate IsAnswer(v: RamView, q: Question, entry: nat) {
    exists n: nat :: v.elsewhere(n, q).entry == Some(entry)
  }

  ghost predicate LinkGood(b: Block, e: Exit, code: map<nat, Block>, v: RamView, bios: Target) {
    && InsideLinked(b, e)
    && (!StaysInside(b, e) ==> LeadsOut(e.branch.target, b.mode, e.link, code, v, bios))
  }

  /** Every direct exit of the block is patched to where it leads. */
  ghost predicate Linked(b: Block, code: map<nat, Block>, v: RamView, bios: Target) {
    forall i | 0 <= i < |b.exits| :: LinkGood(b, b.exits[i], code, v, bios)
  }

  /** Some exit out of the block has not been patched. */
  ghost predicate Unpatched(b: Block, v: RamView) {
    exists i | 0 <= i < |b.exits| ::
      b.exits[i].link == Null && !StaysInside(b, b.exits[i]) && b.exits[i].branch.target != SWI_VECTOR
  }

  lemma UnpatchedIsNotLinked(b: Block, code: map<nat, Block>, v: RamView, bios: Target)
    requires Unpatched(b, v)
    ensures !Linked(b, code, v, bios)
  {
    var i :| 0 <= i < |b.exits| && b.exits[i].link == Null && !StaysInside(b, b.exits[i])
                                && b.exits[i].branch.target != SWI_VECTOR;
    assert !LinkGood(b, b.exits[i], code, v, bios);
  }

  /** Blocks lie one after another below the bump pointer. */
  ghost predicate CodePlaced(code: map<nat, Block>, ptr: nat) {
    && (forall o | o in code :: code[o].entry == o < code[o].end <= ptr && ExitsInside(code[o]))
    && (forall o, p | o in code && p in code && o < p :: code[o].end <= p)
  }

  /** Every block is linked, but for those being translated, and those that were abandoned: they are not. */
  ghost predicate CodeLinked(code: map<nat, Block>, stack: set<nat>, abandoned: set<nat>, v: RamView, bios: Target) {
    && (forall o | o in code && o !in stack && o !in abandoned :: Linked(code[o], code, v, bios))
    && (forall o | o in abandoned :: o in code && Unpatched(code[o], v))
  }

  /** A block about to be put in place at an offset. */
  datatype Coming = Coming(l: Loc, mode: Mode, offset: nat)

  /** The entries that valid tags name hold the offsets of blocks for the halfwords of those tags. */
  ghost predicate Entries(tags: seq<nat>, inEwram: bool, slots: map<int, Slot>, cacheSize: nat,
                          code: map<nat, Block>, v: RamView, coming: Option<Coming>)
  {
    forall i, mode: Mode | 0 <= i < |tags| && ValidTag(tags[i]) ::
      EntryGood(tags[i], Loc(inEwram, i), mode, slots, cacheSize, code, v, coming)
  }

  ghost predicate EntryGood(tag: nat, l: Loc, mode: Mode, slots: map<int, Slot>, cacheSize: nat,
                            code: map<nat, Block>, v: RamView, coming: Option<Coming>)
  {
    && tag < 0x10000 && SlotAddress(cacheSize, tag) in slots
    && var o := slots[SlotAddress(cacheSize, tag)].For(mode);
    o != 0 ==> (o in code && Starts(code[o], l, mode, v)) || coming == Some(Coming(l, mode, o))
  }

  lemma NoEntries(tags: seq<nat>, inEwram: bool, slots: map<int, Slot>, cacheSize: nat, code: map<nat, Block>,
                  v: RamView)
    requires NoValidTag(tags)
    ensures Entries(tags, inEwram, slots, cacheSize, code, v, None)
  {
  }

  lemma EntriesSame(a: seq<nat>, b: seq<nat>, inEwram: bool, slots: map<int, Slot>, cacheSize: nat,
                    code: map<nat, Block>, v: RamView, coming: Option<Coming>)
    requires SameValidTags(a, b)
    ensures Entries(a, inEwram, slots, cacheSize, code, v, coming) ==>
            Entries(b, inEwram, slots, cacheSize, code, v, coming)
  {
    hide EntryGood;
  }

  /** A new tag opens an empty entry and disturbs no other. */
  lemma EntriesAfterAllocation(tags: seq<nat>, inEwram: bool, slots: map<int, Slot>, cacheSize: nat,
                               code: map<nat, Block>, v: RamView, holder: map<nat, Loc>, codeMin: nat, codeMax: nat,
                               tag: nat, at: nat)
    requires Entries(tags, inEwram, slots, cacheSize, code, v, None)
    requires TagsOwned(tags, inEwram, holder, codeMin, codeMax, {}) && HolderHolds(holder, tag)
    requires tag % 2 == 1 && tag < 0x10000
    ensures Entries(if at < |tags| then tags[at := tag] else tags, inEwram,
                    slots[SlotAddress(cacheSize, tag) := Slot(0, 0)], cacheSize, code, v, None)
  {
    hide SlotAddress, Starts;
    var tags' := if at < |tags| then tags[at := tag] else tags;
    var slots' := slots[SlotAddress(cacheSize, tag) := Slot(0, 0)];
    forall i, mode: Mode | 0 <= i < |tags'| && ValidTag(tags'[i])
      ensures EntryGood(tags'[i], Loc(inEwram, i), mode, slots', cacheSize, code, v, None)
    {
      if tags'[i] != tag {
        assert EntryGood(tags[i], Loc(inEwram, i), mode, slots, cacheSize, code, v, None);
        SlotsDiffer(cacheSize, tags[i], tag);
      }
    }
  }

  /** Filling in the entry of a tag with where its code is about to be put disturbs no other tag. */
  lemma EntriesAfterClaim(tags: seq<nat>, inEwram: bool, slots: map<int, Slot>, cacheSize: nat,
                          code: map<nat, Block>, v: RamView, holder: map<nat, Loc>, blockTag: int,
                          codeMin: nat, codeMax: nat, pending: set<Loc>, tag: nat, c: Coming)
    requires Entries(tags, inEwram, slots, cacheSize, code, v, None)
    requires TagsOwned(tags, inEwram, holder, codeMin, codeMax, pending) && HolderHolds(holder, blockTag)
    requires tag in holder && holder[tag] == c.l && SlotAddress(cacheSize, tag) in slots
    ensures var at := SlotAddress(cacheSize, tag);
            Entries(tags, inEwram, slots[at := slots[at].With(c.mode, c.offset)], cacheSize, code, v, Some(c))
  {
    hide SlotAddress, Starts;
    var at := SlotAddress(cacheSize, tag);
    var slots' := slots[at := slots[at].With(c.mode, c.offset)];
    forall i, mode: Mode | 0 <= i < |tags| && ValidTag(tags[i])
      ensures EntryGood(tags[i], Loc(inEwram, i), mode, slots', cacheSize, code, v, Some(c))
    {
      assert EntryGood(tags[i], Loc(inEwram, i), mode, slots, cacheSize, code, v, None);
      if tags[i] != tag {
        SlotsDiffer(cacheSize, tags[i], tag);
      }
    }
  }

  /** Blocks stay where they are; only those in `except` may have exits patched. */
  ghost predicate CodeKept(code: map<nat, Block>, code': map<nat, Block>, except: set<nat>) {
    forall o | o in code ::
      o in code' && (if o in except then SameCode(code[o], code'[o]) else code'[o] == code[o])
  }

  /** The block with exit `j` patched. */
  function Repointed(b: Block, j: nat, link: Target): Block
    requires j < |b.exits|
  {
    b.(exits := b.exits[j := b.exits[j].(link := link)])
  }

  lemma SamePlace(b: Block, b': Block)
    requires SameCode(b, b')
    ensures b'.entry == b.entry && b'.end == b.end
  {
    assert b'.(exits := []).entry == b.(exits := []).entry && b'.(exits := []).end == b.(exits := []).end;
  }

  lemma SameStarts(b: Block, b': Block, l: Loc, mode: Mode, v: RamView)
    requires SameCode(b, b') && Starts(b, l, mode, v)
    ensures Starts(b', l, mode, v) && b'.pc == b.pc && b'.endPc == b.endPc && b'.entry == b.entry && b'.end == b.end
    ensures b'.offsets == b.offsets && b'.mode == b.mode
  {
    CodeHasPlan(b, b');
    SamePlace(b, b');
  }

  lemma EntriesGrow(tags: seq<nat>, inEwram: bool, slots: map<int, Slot>, cacheSize: nat,
                    code: map<nat, Block>, code': map<nat, Block>, except: set<nat>, v: RamView, coming: Option<Coming>)
    requires Entries(tags, inEwram, slots, cacheSize, code, v, coming) && CodeKept(code, code', except)
    requires coming.Some? ==> coming.value.offset !in code
    ensures Entries(tags, inEwram, slots, cacheSize, code', v, coming)
    ensures coming.Some? && coming.value.offset in code' &&
            Starts(code'[coming.value.offset], coming.value.l, coming.value.mode, v) ==>
              Entries(tags, inEwram, slots, cacheSize, code', v, None)
  {
    hide SlotAddress, Starts, SameCode;
    forall i, mode: Mode | 0 <= i < |tags| && ValidTag(tags[i])
      ensures EntryGood(tags[i], Loc(inEwram, i), mode, slots, cacheSize, code', v, coming)
      ensures coming.Some? && coming.value.offset in code' &&
              Starts(code'[coming.value.offset], coming.value.l, coming.value.mode, v) ==>
                EntryGood(tags[i], Loc(inEwram, i), mode, slots, cacheSize, code', v, None)
    {
      assert EntryGood(tags[i], Loc(inEwram, i), mode, slots, cacheSize, code, v, coming);
      var o := slots[SlotAddress(cacheSize, tags[i])].For(mode);
      if o in code && Starts(code[o], Loc(inEwram, i), mode, v) && o in except {
        SameStarts(code[o], code'[o], Loc(inEwram, i), mode, v);
      }
    }
  }

  lemma LeadsOutGrows(t: u32, mode: Mode, link: Target, code: map<nat, Block>, code': map<nat, Block>,
                      except: set<nat>, v: RamView, bios: Target)
    requires LeadsOut(t, mode, link, code, v, bios) && CodeKept(code, code', except)
    ensures LeadsOut(t, mode, link, code', v, bios)
  {
    hide Starts, SameCode;
    if t != SWI_VECTOR && v.isRam(t) && link.offset in except {
      SameStarts(code[link.offset], code'[link.offset], v.place(v.align(t, mode)), mode, v);
    }
  }

  lemma LinkedGrows(b: Block, code: map<nat, Block>, code': map<nat, Block>, except: set<nat>, v: RamView, bios: Target)
    requires Linked(b, code, v, bios) && CodeKept(code, code', except)
    ensures Linked(b, code', v, bios)
  {
    hide LeadsOut, InsideLinked, CodeKept;
    forall i | 0 <= i < |b.exits|
      ensures LinkGood(b, b.exits[i], code', v, bios)
    {
      var e := b.exits[i];
      assert LinkGood(b, e, code, v, bios);
      if !StaysInside(b, e) {
        LeadsOutGrows(e.branch.target, b.mode, e.link, code, code', except, v, bios);
      }
    }
  }

  /** A block put in place, or patched while it is being translated, leaves every other block linked. */
  lemma CodeStaysLinked(code: map<nat, Block>, stack: set<nat>, abandoned: set<nat>, v: RamView, bios: Target,
                        self: nat, b: Block)
    requires CodeLinked(code, stack, abandoned, v, bios) && self !in abandoned
    requires self in code ==> self in stack && SameCode(code[self], b)
    ensures CodeLinked(code[self := b], stack + {self}, abandoned, v, bios)
    ensures CodeKept(code, code[self := b], {self})
  {
    hide Linked, Unpatched, SameCode;
    var code' := code[self := b];
    forall o | o in code' && o !in stack + {self} && o !in abandoned
      ensures Linked(code'[o], code', v, bios)
    {
      LinkedGrows(code[o], code, code', {self}, v, bios);
    }
  }

  /** A block above the bump pointer is a new one. */
  lemma PlacedGrows(code: map<nat, Block>, ptr: nat, b: Block)
    requires CodePlaced(code, ptr) && ptr <= b.entry < b.end && ExitsInside(b)
    ensures b.entry !in code && CodePlaced(code[b.entry := b], b.end) && CodeKept(code, code[b.entry := b], {})
  {
  }

  /** Patching a block leaves all blocks in place. */
  lemma PlacedPatched(code: map<nat, Block>, ptr: nat, self: nat, b: Block)
    requires CodePlaced(code, ptr) && self in code && SameCode(code[self], b)
    ensures CodePlaced(code[self := b], ptr) && CodeKept(code, code[self := b], {self})
  {
    SameInside(code[self], b);
    SamePlace(code[self], b);
  }

  lemma OffTheStack(stack: set<nat>, self: nat)
    requires self !in stack
    ensures stack + {self} - {self} == stack
  {
  }

  lemma OnTheStack(stack: set<nat>, self: nat)
    requires self in stack
    ensures stack + {self} == stack
  {
  }

  lemma KeptInTurn(a: map<nat, Block>, b: map<nat, Block>, c: map<nat, Block>, except1: set<nat>, except2: set<nat>)
    requires CodeKept(a, b, except1) && CodeKept(b, c, except2)
    ensures CodeKept(a, c, except1 + except2)
    ensures (forall o | o in except2 :: o !in a) ==> CodeKept(a, c, except1)
  {
    forall o | o in a
      ensures o in c && SameCode(a[o], c[o])
      ensures o !in except1 && o !in except2 ==> c[o] == a[o]
    {
      assert o in b && SameCode(a[o], b[o]) && SameCode(b[o], c[o]);
    }
  }

  lemma CodeKeptAll(code: map<nat, Block>, except: set<nat>)
    ensures CodeKept(code, code, except)
  {
  }

  lemma KeptButOne(a: map<nat, Block>, b: map<nat, Block>, self: nat)
    requires CodeKept(a, b, {self}) && self in a
    ensures self in b && SameCode(a[self], b[self])
  {
  }

  /** What is known of an exit of a block still to be patched does not depend on the others. */
  lemma ExitAsScanned(block: Block, b: Block, s: Scanned, g: Guest, v: RamView, j: nat)
    requires Translates(block, s, g) && SameCode(block, b) && j < |b.exits| && b.exits[j] == block.exits[j]
    requires v.isRam(block.pc) && InsideLinked(block, block.exits[j])
    requires !StaysInside(block, block.exits[j]) ==> block.exits[j].link == Null
    ensures InsideLinked(b, b.exits[j])
    ensures !StaysInside(b, b.exits[j]) ==> b.exits[j].link == Null
    ensures KeepsOutOfRom(g, v) && v.isRom(b.exits[j].branch.target) ==> b.exits[j].branch.target == SWI_VECTOR
    ensures AllQuiet(s, v) ==> Quiet(v, b.exits[j].branch.target)
  {
    hide KeepsOutOfRom, Translates, Quiet, InsideLinked;
    CodeHasPlan(block, b);
    StillLands(block, b, block.exits[j]);
    TargetAt(block, s, g, j);
    if KeepsOutOfRom(g, v) {
      ExitOutOfRom(g, v, block.mode, block.pc, s, block.exits[j].branch.target);
    }
  }

  lemma SameInTurn(a: Block, b: Block, c: Block)
    requires SameCode(a, b) && SameCode(b, c)
    ensures SameCode(a, c)
  {
  }

  lemma AlignTwice(v: RamView, pc: u32, mode: Mode)
    requires Sound(v)
    ensures v.align(v.align(pc, mode), mode) == v.align(pc, mode)
  {
    hide AlignsTo, PlacedAt;
    var start := v.align(pc, mode);
    assert AlignsTo(start, pc, mode) && AlignsTo(v.align(start, mode), start, mode);
    AlignedAlready(v.align(start, mode), start, pc, mode);
  }

  lemma StaysRam(v: RamView, pc: u32, mode: Mode)
    requires Sound(v) && v.isRam(pc)
    ensures v.isRam(v.align(pc, mode))
  {
  }

  lemma EndOfScan(s: Scanned, g: Guest, mode: Mode, pc: u32)
    requires IsScanOf(s, g, mode, pc)
    ensures s.endPc == PcAt(mode, pc, |s.exits|)
  {
  }

  lemma FreshEntry(b: Block, pc: u32, mode: Mode, s: Scanned, emits: seq<bool>, entry: nat)
    requires Fresh(b, pc, mode, s, emits, entry)
    ensures b.entry == entry
  {
  }

  lemma SameInside(b: Block, b': Block)
    requires SameCode(b, b') && ExitsInside(b)
    ensures ExitsInside(b')
  {
    assert b'.(exits := []).entry == b.(exits := []).entry && b'.(exits := []).end == b.(exits := []).end;
    forall i | 0 <= i < |b'.exits|
      ensures b'.entry <= b'.exits[i].branch.lo < b'.exits[i].branch.hi <= b'.end
    {
      assert b'.exits[i].branch == b.exits[i].branch;
    }
  }

  /** Looking for the code of this target does not lead to other code in RAM. */
  ghost predicate Quiet(v: RamView, t: u32) {
    !v.isRam(t) && forall n: nat, mode :: v.elsewhere(n, Question(t, mode)).visits == []
  }

  ghost predicate AllQuiet(s: Scanned, v: RamView) { forall t | t in s.targets :: Quiet(v, t) }

  predicate Single(s: Scanned) { |s.exits| == 1 }

  /** Translating the block at `start` takes no other block in RAM. */
  ghost predicate Apart(g: Guest, v: RamView, mode: Mode, start: u32) {
    forall s: Scanned | IsScanOf(s, g, mode, start) :: AllQuiet(s, v)
  }

  /** The block at `start` is a single instruction. */
  ghost predicate Short(g: Guest, mode: Mode, start: u32) {
    forall s: Scanned | IsScanOf(s, g, mode, start) :: Single(s)
  }

  lemma ApartIsQuiet(s: Scanned, g: Guest, v: RamView, mode: Mode, start: u32)
    requires Apart(g, v, mode, start) && IsScanOf(s, g, mode, start)
    ensures AllQuiet(s, v) && |s.exits| <= MAX_BLOCK_SIZE
    ensures Short(g, mode, start) ==> Single(s)
  {
  }

  /** The exits of the block being patched that have been patched stay good while other blocks come. */
  lemma ExitsStayGood(b: Block, b': Block, n: nat, code: map<nat, Block>, code': map<nat, Block>, except: set<nat>,
                      v: RamView, bios: Target)
    requires n <= |b.exits| && SameCode(b, b') && CodeKept(code, code', except)
    requires forall i | 0 <= i < n :: LinkGood(b, b.exits[i], code, v, bios) && b'.exits[i] == b.exits[i]
    ensures forall i | 0 <= i < n :: LinkGood(b', b'.exits[i], code', v, bios)
  {
    hide LeadsOut, CodeKept, InsideLinked;
    CodeHasPlan(b, b');
    forall i | 0 <= i < n
      ensures LinkGood(b', b'.exits[i], code', v, bios)
    {
      var e := b.exits[i];
      assert LinkGood(b, e, code, v, bios);
      StillLands(b, b', e);
      if !StaysInside(b, e) {
        LeadsOutGrows(e.branch.target, b.mode, e.link, code, code', except, v, bios);
      }
    }
  }

  // ----------------------------------------------------------------------------------------------
  // The cache
  // ----------------------------------------------------------------------------------------------

  /** The bounds of the code translated from the two regions. */
  datatype Extent = Extent(min1: nat, max1: nat, min2: nat, max2: nat)

  /** The bounds once they include the halfword at `l`, and no more. */
  function Widened(e: Extent, l: Loc): Extent {
    if l.inEwram then e.(min2 := Min(e.min2, 2 * l.i), max2 := Max(e.max2, 2 * l.i))
    else e.(min1 := Min(e.min1, 2 * l.i), max1 := Max(e.max1, 2 * l.i))
  }

  predicate Within(e: Extent, l: Loc) {
    if l.inEwram then e.min2 <= 2 * l.i <= e.max2 else e.min1 <= 2 * l.i <= e.max1
  }

  /** The first `n` instructions of the block at `pc` lie within the bounds. */
  ghost predicate AllWithin(v: RamView, e: Extent, pc: u32, mode: Mode, n: nat) {
    forall k | 0 <= k < n :: Within(e, v.place(PcAt(mode, pc, k)))
  }

  lemma NoneWithin(v: RamView, e: Extent, pc: u32, mode: Mode)
    ensures AllWithin(v, e, pc, mode, 0)
  {
  }

  lemma MoreWithin(v: RamView, e: Extent, pc: u32, mode: Mode, n: nat)
    requires AllWithin(v, e, pc, mode, n)
    ensures AllWithin(v, Widened(e, v.place(PcAt(mode, pc, n))), pc, mode, n + 1)
  {
    forall k | 0 <= k <= n
      ensures Within(Widened(e, v.place(PcAt(mode, pc, n))), v.place(PcAt(mode, pc, k)))
    {
      assert k < n ==> Within(e, v.place(PcAt(mode, pc, k)));
    }
  }

  /** What the tags of both regions and the block table say, the next tag, and the code. */
  datatype Memory = Memory(tags1: seq<nat>, tags2: seq<nat>, slots: map<int, Slot>, next: int, code: map<nat, Block>)

  /** Valid tags, the entries they name and code stay; only blocks in `except` may have exits patched. */
  ghost predicate MemoryKept(a: Memory, b: Memory, cacheSize: nat, except: set<nat>) {
    && KeptTags(a.tags1, b.tags1) && KeptTags(a.tags2, b.tags2)
    && KeptSlots(a.slots, b.slots, cacheSize, a.next) && b.next <= a.next
    && CodeKept(a.code, b.code, except)
  }

  lemma MemoryStays(a: Memory, cacheSize: nat, except: set<nat>)
    ensures MemoryKept(a, a, cacheSize, except)
  {
    hide SlotAddress;
  }

  lemma MemoryPatched(a: Memory, b: Memory, cacheSize: nat, self: nat)
    requires b == a.(code := b.code) && CodeKept(a.code, b.code, {self})
    ensures MemoryKept(a, b, cacheSize, {self})
  {
    MemoryStays(a, cacheSize, {});
  }

  lemma MemoryOpened(a: Memory, b: Memory, cacheSize: nat)
    requires KeptTags(a.tags1, b.tags1) && KeptTags(a.tags2, b.tags2) && b.code == a.code && b.next == a.next - 2
    requires 0 <= a.next < 0x10000 && a.next % 2 == 1
    requires b.slots == a.slots[SlotAddress(cacheSize, a.next) := Slot(0, 0)]
    ensures MemoryKept(a, b, cacheSize, {})
  {
    hide SlotAddress, KeptTags;
    OpeningKeeps(a.slots, cacheSize, a.next);
  }

  lemma MemoryFilled(a: Memory, cacheSize: nat, at: int, mode: Mode, offset: nat)
    requires at in a.slots && a.slots[at].For(mode) == 0
    ensures MemoryKept(a, a.(slots := a.slots[at := a.slots[at].With(mode, offset)]), cacheSize, {})
  {
    hide SlotAddress;
  }

  /** A block that was not to be touched is as it was. */
  lemma BlockStays(a: Memory, b: Memory, cacheSize: nat, self: nat)
    requires MemoryKept(a, b, cacheSize, {}) && self in a.code
    ensures self in b.code && b.code[self] == a.code[self] && MemoryKept(a, b, cacheSize, {self})
  {
    hide KeptTags, KeptSlots;
  }

  lemma CodeOf(a: Memory, b: Memory, cacheSize: nat, except: set<nat>)
    requires MemoryKept(a, b, cacheSize, except)
    ensures CodeKept(a.code, b.code, except)
  {
  }

  lemma MemoryInTurn(a: Memory, b: Memory, c: Memory, cacheSize: nat, except1: set<nat>, except2: set<nat>)
    requires MemoryKept(a, b, cacheSize, except1) && MemoryKept(b, c, cacheSize, except2)
    ensures MemoryKept(a, c, cacheSize, except1 + except2)
    ensures except1 == except2 || (forall o | o in except2 :: o !in a.code) ==> MemoryKept(a, c, cacheSize, except1)
  {
    hide KeptTags, KeptSlots, CodeKept;
    TagsKeptInTurn(a.tags1, b.tags1, c.tags1);
    TagsKeptInTurn(a.tags2, b.tags2, c.tags2);
    TablesKeptInTurn(a.slots, b.slots, c.slots, cacheSize, a.next, b.next);
    KeptInTurn(a.code, b.code, c.code, except1, except2);
    assert except1 == except2 ==> except1 + except2 == except1;
  }

  class RamCache {
    const view: RamView
    const emit: Bounds
    const cacheSize: nat
    const iwram: TagMirror
    const ewram: TagMirror

    // The entry of the software interrupt vector, in the code of the other cache.
    const bios: Target

    // Guest memory; stores by the guest may change it between lookups.
    var guest: Guest

    var slots: map<int, Slot>
    var code: map<nat, Block>
    var ptr: nat
    var lastPtr: nat
    var blockTag: nat

    // Tags handed out since the last flush: how many, and to which halfword each.
    ghost var handedOut: nat
    ghost var holder: map<nat, Loc>

    // The lookups in the other cache so far. Their number says which outcome is next.
    var asked: seq<Question>

    // Blocks left with an exit unpatched since the last flush, because a lookup in the other cache failed.
    ghost var abandoned: set<nat>

    // Whether some flush so far has left a valid tag behind, and how many flushes there were.
    ghost var missed: bool
    ghost var flushes: nat

    // Byte ranges emitted or patched since the instruction cache was last synchronised.
    ghost var dirty: set<(nat, nat)>

    /** An empty cache, as set up at start-up. */
    constructor (guest: Guest, elsewhere: (nat, Question) -> Outcome, emit: Bounds, cacheSize: nat, biosEntry: nat)
      requires emit.gateMax + emit.headMax + emit.insnMax + SLOT_SIZE <= LIMIT_THRESHOLD
      requires emit.updateMax + emit.insnMax <= LIMIT_THRESHOLD <= cacheSize <= MAX_CACHE_SIZE
      requires emit.Consistent() && MIN_BLOCK <= emit.prologue + emit.gateMin
      ensures Ready({}) && Flushed() && !missed && this.guest == guest && view == ViewBeside(elsewhere)
      ensures this.emit == emit && this.cacheSize == cacheSize && NoValidTags() && flushes == 0
      ensures iwram.codeMax == IWRAM_SIZE && ewram.codeMax == EWRAM_SIZE
      ensures fresh(iwram) && fresh(ewram) && fresh(iwram.tags) && fresh(ewram.tags)
    {
      var inner := new TagMirror(IWRAM_SIZE);
      var outer := new TagMirror(EWRAM_SIZE);
      this.guest, this.emit, this.cacheSize, view := guest, emit, cacheSize, ViewBeside(elsewhere);
      iwram, ewram, bios := inner, outer, Beyond(biosEntry);
      slots, code, abandoned, asked, ptr, lastPtr, blockTag := map[], map[], {}, [], 0, 0, INITIAL_TOP_TAG;
      handedOut, holder, missed, flushes, dirty := 0, map[], false, 0, {};
      RamViewIsSound(elsewhere);
    }

    ghost predicate Sizes() {
      && emit.gateMax + emit.headMax + emit.insnMax + SLOT_SIZE <= LIMIT_THRESHOLD
      && emit.updateMax + emit.insnMax <= LIMIT_THRESHOLD <= cacheSize <= MAX_CACHE_SIZE
      && emit.Consistent() && MIN_BLOCK <= emit.prologue + emit.gateMin
      && Sound(view) && bios.Beyond?
    }

    /** The least code that a block takes. */
    function Least(): nat { emit.prologue + emit.gateMin }

    ghost predicate Mirrors()
      reads iwram, ewram
    {
      && iwram != ewram && iwram.tags != ewram.tags
      && iwram.size == IWRAM_SIZE && ewram.size == EWRAM_SIZE
      && iwram.tags.Length * 2 == IWRAM_SIZE && ewram.tags.Length * 2 == EWRAM_SIZE
    }

    ghost predicate MirrorsValid()
      reads iwram, ewram, iwram.tags, ewram.tags
    {
      Mirrors() && iwram.Valid() && ewram.Valid()
    }

    /** The end of the memory that code may use: the lowest slot of the block table. */
    function SlotFloor(): int
      reads `blockTag
    {
      cacheSize - 8 * ((INITIAL_TOP_TAG - blockTag) / 2)
    }

    /** Code and block table share the buffer without overlap; `open` says that a tag has been handed
        out for the block being translated. */
    ghost predicate SpaceHolds(open: bool)
      reads `ptr, `lastPtr, `blockTag, `handedOut, `dirty
    {
      var closed := if open then handedOut - 1 else handedOut;
      && blockTag == TagNumber(handedOut)
      && MIN_BLOCK * closed <= ptr && (LASTING_BLOCK <= Least() ==> LASTING_BLOCK * closed <= ptr)
      && ptr + 8 * closed + LIMIT_THRESHOLD <= cacheSize + emit.gateMax
      && lastPtr <= ptr
      && (forall range | range in dirty :: lastPtr <= range.0 < range.1 <= ptr)
    }

    /** Unless a flush has missed something, every valid tag is unique to its halfword, was handed out
        since the last flush, and lies within the bounds that the next flush clears. */
    ghost predicate TagsHold(pending: set<Loc>)
      reads `slots, `holder, `missed, `blockTag, iwram, ewram, iwram.tags, ewram.tags
    {
      && HolderHolds(holder, blockTag)
      && SlotsPresent(iwram.tags[..], slots, cacheSize)
      && SlotsPresent(ewram.tags[..], slots, cacheSize)
      && (!missed ==>
            && TagsOwned(iwram.tags[..], false, holder, iwram.codeMin, iwram.codeMax, pending)
            && TagsOwned(ewram.tags[..], true, holder, ewram.codeMin, ewram.codeMax, pending))
    }

    /** Unless a flush has missed something, the tags name code, and every block is linked but for those on the
        stack and those that were abandoned. */
    ghost predicate CodeHolds(stack: set<nat>, coming: Option<Coming>)
      reads `code, `abandoned, `slots, `missed, `ptr, `lastPtr, iwram.tags, ewram.tags
    {
      && CodePlaced(code, ptr) && abandoned <= code.Keys && stack !! abandoned
      && (forall o | o in stack :: o in code && lastPtr <= o)
      && (!missed ==>
            && CodeLinked(code, stack, abandoned, view, bios)
            && Entries(iwram.tags[..], false, slots, cacheSize, code, view, coming)
            && Entries(ewram.tags[..], true, slots, cacheSize, code, view, coming))
    }

    /** Between blocks, with the blocks in `stack` still being translated further up. */
    ghost predicate Ready(stack: set<nat>)
      reads this, iwram, ewram, iwram.tags, ewram.tags
    {
      Sizes() && MirrorsValid() && SpaceHolds(false) && TagsHold({}) && CodeHolds(stack, None)
    }

    ghost predicate NoValidTags()
      reads iwram.tags, ewram.tags
    {
      NoValidTag(iwram.tags[..]) && NoValidTag(ewram.tags[..])
    }

    /** The state a flush leaves; the mirrors hold no valid tag unless a flush has missed one. */
    ghost predicate Flushed()
      reads this, iwram.tags, ewram.tags
    {
      && ptr == lastPtr == 0 && blockTag == INITIAL_TOP_TAG && handedOut == 0 && dirty == {}
      && code == map[] && abandoned == {}
      && (!missed ==> NoValidTags())
    }

    /** A region whose upper bound is zero although its first halfword starts a block. */
    ghost predicate Corner(m: TagMirror)
      reads m, m.tags
    {
      m.codeMax == 0 && m.tags.Length > 0 && ValidTag(m.tags[0])
    }

    method FlushMirrors()
      requires MirrorsValid()
      modifies iwram, ewram, iwram.tags, ewram.tags
      ensures MirrorsValid()
      ensures iwram.codeMin == ewram.codeMin == NO_MINIMUM && iwram.codeMax == ewram.codeMax == 0
      ensures iwram.tags[..] == AfterFlush(old(iwram.tags[..]), old(iwram.codeMin), old(iwram.codeMax))
      ensures ewram.tags[..] == AfterFlush(old(ewram.tags[..]), old(ewram.codeMin), old(ewram.codeMax))
    {
      iwram.Flush();
      ewram.Flush();
    }

    /** Takes back all of the buffer. */
    method ResetSpace()
      requires Sizes()
      modifies `code, `abandoned, `ptr, `lastPtr, `blockTag, `handedOut, `holder, `dirty
      ensures SpaceHolds(false) && HolderHolds(holder, blockTag) && code == map[] && abandoned == {}
      ensures ptr == lastPtr == 0 && blockTag == INITIAL_TOP_TAG && handedOut == 0 && holder == map[] && dirty == {}
    {
      hide Sound;
      lastPtr, ptr := 0, 0;
      blockTag := INITIAL_TOP_TAG;
      handedOut, holder, dirty, code, abandoned := 0, map[], {}, map[], {};
    }

    /** Drops all translated code and clears the tags within the bounds. A valid tag survives exactly in
        the corner where a region's bound is zero and its first halfword is tagged. */
    method Flush()
      requires Sizes() && MirrorsValid() && TagsHold({})
      modifies `code, `abandoned, `ptr, `lastPtr, `blockTag, `handedOut, `holder, `missed, `flushes, `dirty
      modifies iwram, ewram, iwram.tags, ewram.tags
      ensures Ready({}) && Flushed() && flushes == old(flushes) + 1
      ensures iwram.codeMin == ewram.codeMin == NO_MINIMUM && iwram.codeMax == ewram.codeMax == 0
      ensures missed == (old(missed) || old(Corner(iwram)) || old(Corner(ewram)))
      ensures !old(missed) ==> (NoValidTags() <==> !missed)
      ensures iwram.tags[..] == AfterFlush(old(iwram.tags[..]), old(iwram.codeMin), old(iwram.codeMax))
      ensures ewram.tags[..] == AfterFlush(old(ewram.tags[..]), old(ewram.codeMin), old(ewram.codeMax))
    {
      hide TagsOwned, SlotsPresent, AfterFlush, NoValidTag, Sizes, SpaceHolds, HolderHolds, Cleared, ValidTag, Entries;
      ghost var corner1, corner2 := Corner(iwram), Corner(ewram);
      FlushOwned(iwram.tags[..], false, holder, iwram.codeMin, iwram.codeMax, slots, cacheSize);
      FlushOwned(ewram.tags[..], true, holder, ewram.codeMin, ewram.codeMax, slots, cacheSize);
      flushes := flushes + 1;
      ResetSpace();
      FlushMirrors();
      missed := missed || corner1 || corner2;
      if !missed {
        NoEntries(iwram.tags[..], false, slots, cacheSize, code, view);
        NoEntries(ewram.tags[..], true, slots, cacheSize, code, view);
      }
    }

    function MirrorOf(l: Loc): TagMirror { if l.inEwram then ewram else iwram }

    /** Hands out the next tag for the block that starts at `l`, with an empty entry in the block table. The tag
        names the slot that was made room for, above all code, as long as it is 0x8001 or more; it always is if blocks
        take LASTING_BLOCK bytes. */
    method AllocateTag(l: Loc, mode: Mode, ghost stack: set<nat>)
      requires Ready(stack) && l.i < MirrorOf(l).tags.Length && (mode.Arm? ==> l.i + 1 < MirrorOf(l).tags.Length)
      requires !ValidTag(MirrorOf(l).tags[l.i])
      modifies `slots, `blockTag, `handedOut, `holder, iwram.tags, ewram.tags
      ensures Sizes() && MirrorsValid() && SpaceHolds(true) && TagsHold({l}) && CodeHolds(stack, None)
      ensures MirrorOf(l).tags[l.i] == old(blockTag) && (LASTING_BLOCK <= Least() ==> old(blockTag) >= 0x8001)
      ensures KeptTags(old(iwram.tags[..]), iwram.tags[..]) && KeptTags(old(ewram.tags[..]), ewram.tags[..])
      ensures blockTag == old(blockTag) - 2
      ensures ptr <= SlotFloor() < cacheSize
      ensures old(blockTag) >= 0x8001 <==> SlotAddress(cacheSize, old(blockTag)) == SlotFloor()
      ensures old(blockTag) >= 0x8001 <==> SlotAddress(cacheSize, old(blockTag)) < cacheSize
      ensures slots == old(slots)[SlotAddress(cacheSize, old(blockTag)) := Slot(0, 0)]
    {
      hide TagsHold, MirrorsValid, Sound, KeptTags, CodeHolds;
      TagsNameSlots(cacheSize, handedOut);
      PlaceTag(l, mode, stack);
      handedOut := handedOut + 1;
    }

    /** Stores the next tag at `l` and opens its entry. */
    method PlaceTag(l: Loc, mode: Mode, ghost stack: set<nat>)
      requires MirrorsValid() && TagsHold({}) && 2 < blockTag <= INITIAL_TOP_TAG && blockTag % 2 == 1
      requires CodeHolds(stack, None)
      requires ValidTag(blockTag)
      requires l.i < MirrorOf(l).tags.Length && (mode.Arm? ==> l.i + 1 < MirrorOf(l).tags.Length)
      requires !ValidTag(MirrorOf(l).tags[l.i])
      modifies `slots, `blockTag, `holder, iwram.tags, ewram.tags
      ensures MirrorsValid() && TagsHold({l}) && CodeHolds(stack, None)
      ensures blockTag == old(blockTag) - 2 && MirrorOf(l).tags[l.i] == old(blockTag)
      ensures KeptTags(old(iwram.tags[..]), iwram.tags[..]) && KeptTags(old(ewram.tags[..]), ewram.tags[..])
      ensures slots == old(slots)[SlotAddress(cacheSize, old(blockTag)) := Slot(0, 0)]
    {
      hide TagsOwned, SlotsPresent, SlotAddress, SameValidTags, KeptTags, ValidTag, Entries, CodePlaced, CodeLinked;
      var tag, empty := blockTag, Slot(0, 0);
      ghost var tags1, tags2 := iwram.tags[..], ewram.tags[..];
      ghost var at1, at2 := if l.inEwram then |tags1| else l.i, if l.inEwram then l.i else |tags2|;
      SlotsAfterAllocation(tags1, slots, cacheSize, tag, empty, at1);
      SlotsAfterAllocation(tags2, slots, cacheSize, tag, empty, at2);
      if !missed {
        OwnedAfterAllocation(tags1, false, holder, iwram.codeMin, iwram.codeMax, l, tag);
        OwnedAfterAllocation(tags2, true, holder, ewram.codeMin, ewram.codeMax, l, tag);
        EntriesAfterAllocation(tags1, false, slots, cacheSize, code, view, holder, iwram.codeMin, iwram.codeMax, tag,
                               at1);
        EntriesAfterAllocation(tags2, true, slots, cacheSize, code, view, holder, ewram.codeMin, ewram.codeMax, tag,
                               at2);
      }
      slots := slots[SlotAddress(cacheSize, tag) := empty];
      holder := holder[tag := l];
      blockTag := blockTag - 2;
      if l.inEwram {
        ewram.StoreTag(l.i, tag, mode);
        KeptAll(tags1);
        OwnedSame(tags2[l.i := tag], ewram.tags[..], true, holder, ewram.codeMin, ewram.codeMax, {l}, slots, cacheSize);
        EntriesSame(tags2[l.i := tag], ewram.tags[..], true, slots, cacheSize, code, view, None);
      } else {
        iwram.StoreTag(l.i, tag, mode);
        KeptAll(tags2);
        OwnedSame(tags1[l.i := tag], iwram.tags[..], false, holder, iwram.codeMin, iwram.codeMax, {l}, slots,
                  cacheSize);
        EntriesSame(tags1[l.i := tag], iwram.tags[..], false, slots, cacheSize, code, view, None);
      }
    }

    function LocOf(pc: u32, mode: Mode): Loc { view.place(view.align(pc, mode)) }

    /** The first `count` instructions of the block at `pc` are tagged as code, so that a store to them is
        noticed. */
    ghost predicate CodeTagged(pc: u32, mode: Mode, count: nat)
      reads iwram.tags, ewram.tags
    {
      AllTagged(view, iwram.tags[..], ewram.tags[..], pc, mode, count)
    }

    /** Tags the instruction at `pc` as code. */
    method MarkInstruction(pc: u32, mode: Mode, ghost pending: set<Loc>, ghost stack: set<nat>,
                           ghost coming: Option<Coming>)
      requires Sizes() && MirrorsValid() && TagsHold(pending) && CodeHolds(stack, coming)
      modifies iwram.tags, ewram.tags
      ensures MirrorsValid() && TagsHold(pending) && CodeHolds(stack, coming)
      ensures KeptTags(old(iwram.tags[..]), iwram.tags[..]) && KeptTags(old(ewram.tags[..]), ewram.tags[..])
      ensures Tagged(iwram.tags[..], ewram.tags[..], LocOf(pc, mode), mode)
    {
      hide TagsOwned, SlotsPresent, SameValidTags, KeptTags, Sound, Entries, CodePlaced, CodeLinked;
      var l := LocOf(pc, mode);
      PlacedInRange(view, pc, mode);
      ghost var tags1, tags2 := iwram.tags[..], ewram.tags[..];
      KeptAll(tags1);
      KeptAll(tags2);
      if l.inEwram {
        ewram.MarkCode(l.i, mode);
        OwnedSame(tags2, ewram.tags[..], true, holder, ewram.codeMin, ewram.codeMax, pending, slots, cacheSize);
        EntriesSame(tags2, ewram.tags[..], true, slots, cacheSize, code, view, coming);
      } else {
        iwram.MarkCode(l.i, mode);
        OwnedSame(tags1, iwram.tags[..], false, holder, iwram.codeMin, iwram.codeMax, pending, slots, cacheSize);
        EntriesSame(tags1, iwram.tags[..], false, slots, cacheSize, code, view, coming);
      }
    }

    /** Tags the instructions of a scanned block as code. */
    method MarkScanned(pc: u32, mode: Mode, count: nat, ghost pending: set<Loc>, ghost stack: set<nat>,
                       ghost coming: Option<Coming>)
      requires Sizes() && MirrorsValid() && TagsHold(pending) && CodeHolds(stack, coming)
      modifies iwram.tags, ewram.tags
      ensures MirrorsValid() && TagsHold(pending) && CodeHolds(stack, coming)
      ensures KeptTags(old(iwram.tags[..]), iwram.tags[..]) && KeptTags(old(ewram.tags[..]), ewram.tags[..])
      ensures CodeTagged(pc, mode, count)
    {
      hide Sizes, MirrorsValid, TagsHold, Tagged, CodeHolds;
      var k := 0;
      while k < count
        invariant 0 <= k <= count
        invariant MirrorsValid() && TagsHold(pending) && CodeHolds(stack, coming) && CodeTagged(pc, mode, k)
        invariant KeptTags(old(iwram.tags[..]), iwram.tags[..]) && KeptTags(old(ewram.tags[..]), ewram.tags[..])
      {
        ghost var tags1, tags2 := iwram.tags[..], ewram.tags[..];
        MarkInstruction(PcAt(mode, pc, k), mode, pending, stack, coming);
        AllStayTagged(view, tags1, tags2, iwram.tags[..], ewram.tags[..], pc, mode, k);
        k := k + 1;
      }
    }

    /** The bounds as they are now. */
    function InUse(): Extent
      reads iwram, ewram
    {
      Extent(iwram.codeMin, iwram.codeMax, ewram.codeMin, ewram.codeMax)
    }

    /** Widens the bounds of translated code to the instruction at `pc`. */
    method NoteCode(pc: u32, ghost pending: set<Loc>)
      requires Sizes() && MirrorsValid() && TagsHold(pending)
      modifies iwram, ewram
      ensures MirrorsValid() && TagsHold(pending - {view.place(pc)})
      ensures InUse() == Widened(old(InUse()), view.place(pc))
    {
      hide TagsOwned, SlotsPresent;
      var l := view.place(pc);
      ghost var min1, max1, min2, max2 := iwram.codeMin, iwram.codeMax, ewram.codeMin, ewram.codeMax;
      if l.inEwram {
        ewram.UpdateLimits(2 * l.i);
        OwnedAfterUpdate(ewram.tags[..], true, holder, min2, max2, ewram.codeMin, ewram.codeMax, pending, l);
        OwnedElsewhere(iwram.tags[..], false, holder, min1, max1, pending, l);
      } else {
        iwram.UpdateLimits(2 * l.i);
        OwnedAfterUpdate(iwram.tags[..], false, holder, min1, max1, iwram.codeMin, iwram.codeMax, pending, l);
        OwnedElsewhere(ewram.tags[..], true, holder, min2, max2, pending, l);
      }
    }

    /** There is room for a block of `n` instructions. */
    predicate Room(n: nat)
      reads `ptr, `blockTag
    {
      ptr + emit.headMax + emit.Most(n) + LIMIT_THRESHOLD <= SlotFloor()
    }

    /** There is room at least for the start of a block and one instruction. */
    lemma HeadFits()
      requires Sizes() && SpaceHolds(true)
      ensures ptr + emit.headMax + emit.insnMax <= SlotFloor()
      ensures cacheSize - LIMIT_THRESHOLD - (0x10000 - blockTag) / 2 * 8 == SlotFloor() - LIMIT_THRESHOLD
    {
      hide Sound;
    }

    /** Emits a block at the bump pointer, widening the bounds instruction by instruction, until it is
        done or the code runs over the limit. All of it lies below the block table, and all instructions
        translated are within the bounds. */
    method EmitBlock(pc: u32, mode: Mode, s: Scanned, ghost pending: set<Loc>)
      returns (overflow: bool, b: Block, ghost n: nat)
      requires Sizes() && MirrorsValid() && SpaceHolds(true) && TagsHold(pending)
      requires s.exits != [] && s.targets == Direct(s.exits) && pending <= {view.place(pc)}
      modifies iwram, ewram
      ensures MirrorsValid() && TagsHold({})
      ensures overflow ==> !Room(|s.exits|)
      ensures !overflow ==>
                && ptr + Least() <= b.end && b.end + LIMIT_THRESHOLD <= SlotFloor() + emit.gateMax
                && Fresh(b, pc, mode, s, Emitting(guest, mode, pc, s), ptr + emit.prologue)
      ensures 1 <= n <= |s.exits| && (overflow || n == |s.exits|) && AllWithin(view, InUse(), pc, mode, n)
      ensures |s.exits| == 1 ==> InUse() == Widened(old(InUse()), view.place(pc))
    {
      hide MirrorsValid, TagsHold, Sound, EmittedSoFar, Direct, Bounds.Most, AllWithin, Fresh, InUse, Widened;
      hide Emitting, Recorded, SlotFloor, SpaceHolds;
      emit.MostRises(0, |s.exits|);
      EmittingRecorded(guest, mode, pc, s);
      var emits := Emitting(guest, mode, pc, s);
      var floor := SlotFloor();
      ghost var start := InUse();
      NoneWithin(view, start, pc, mode);
      var limit := cacheSize - LIMIT_THRESHOLD - (0x10000 - blockTag) / 2 * 8;
      HeadFits();
      var offsets: seq<nat>, branches: seq<Branch> := [], [];
      var entry: nat := ptr + emit.prologue;
      var at: nat := EmitHead(emit, ptr, floor);
      NothingEmitted(emits, s.targets, entry, at);
      var i := 0;
      while i < |s.exits|
        invariant 0 <= i <= |s.exits| && EmittedSoFar(offsets, branches, emits, s.targets, i, entry, at)
        invariant MirrorsValid() && TagsHold(if i == 0 then pending else {}) && AllWithin(view, InUse(), pc, mode, i)
        invariant entry <= at <= ptr + emit.headMax + emit.Most(i)
        invariant at <= if i == 0 then ptr + emit.headMax else if i < |s.exits| then limit + emit.updateMax else limit
        invariant i <= 1 ==> InUse() == if i == 0 then start else Widened(start, view.place(pc))
      {
        emit.MostGrows(i, |s.exits|);
        Note(pc, mode, i, pending);
        offsets, branches, at := EmitNext(emit, emits, s.targets, s.exits, i, offsets, branches, entry, at, floor);
        i := i + 1;
        if at > limit {
          return true, Block(pc, mode, s.endPc, entry, at, offsets, []), i;
        }
        if i < |s.exits| {
          at := EmitGap(emit, emits, s.targets, i, offsets, branches, entry, at, floor);
        }
      }
      overflow, n := false, i;
      b := EmitEnd(emit, pc, mode, s, emits, offsets, branches, entry, at, floor);
    }

    /** Notes instruction `i` of a block, all before it having been noted. */
    method Note(pc: u32, mode: Mode, i: nat, ghost pending: set<Loc>)
      requires Sizes() && MirrorsValid() && pending <= {view.place(pc)} && AllWithin(view, InUse(), pc, mode, i)
      requires TagsHold(if i == 0 then pending else {})
      modifies iwram, ewram
      ensures MirrorsValid() && TagsHold({}) && AllWithin(view, InUse(), pc, mode, i + 1)
      ensures i == 0 ==> InUse() == Widened(old(InUse()), view.place(pc))
    {
      hide TagsHold, Sound, AllWithin, InUse, Widened;
      MoreWithin(view, InUse(), pc, mode, i);
      ghost var still := if i == 0 then pending else {};
      NoteCode(PcAt(mode, pc, i), still);
      assert still - {view.place(PcAt(mode, pc, i))} == {};
    }

    /** The memory as it is now. */
    ghost function Now(): Memory
      reads `slots, `blockTag, `code, iwram.tags, ewram.tags
    {
      Memory(iwram.tags[..], ewram.tags[..], slots, blockTag, code)
    }

    twostate predicate Kept(except: set<nat>)
      reads `slots, `blockTag, `code, iwram.tags, ewram.tags
    {
      MemoryKept(old(Now()), Now(), cacheSize, except)
    }

    /** The lookups in the other cache since then have all found code. */
    twostate predicate Answered()
      reads `asked
    {
      old(asked) <= asked && AllAnswered(view, asked, |old(asked)|)
    }

    /** What every step of the recursion guarantees. If no flush happened, code only grew and tags were
        only handed out; if one did, the cache is as the flush left it. No block is abandoned as long as all lookups
        in the other cache find code; and there are none unless RAM code leads to ROM. */
    twostate predicate Stepped(except: set<nat>)
      reads this, iwram.tags, ewram.tags
    {
      && old(flushes) <= flushes && guest == old(guest) && old(asked) <= asked
      && (old(missed) ==> missed)
      && (KeepsOutOfRom(guest, view) ==> asked == old(asked))
      && (flushes == old(flushes) ==>
            && missed == old(missed) && old(ptr) <= ptr && lastPtr == old(lastPtr) && Kept(except)
            && old(abandoned) <= abandoned
            && (Answered() ==> abandoned == old(abandoned)))
      && (flushes > old(flushes) ==> Flushed())
    }

    /** No code has been translated, nor flushed. */
    twostate predicate Undisturbed()
      reads `ptr, `flushes, iwram, ewram, iwram.tags, ewram.tags
    {
      unchanged(this`ptr, this`flushes, iwram, ewram, iwram.tags, ewram.tags)
    }

    /** Unless there was a flush, the step has failed exactly if a lookup in the other cache has, and has abandoned
        some block exactly then. */
    twostate predicate FailsIff(ok: bool)
      reads `flushes, `asked, `abandoned
    {
      flushes == old(flushes) ==> (ok <==> Answered()) && (abandoned == old(abandoned) <==> Answered())
    }

    /** The cache after a step with blocks on the stack, which a flush has emptied. */
    ghost predicate After(stack: set<nat>, flushed: bool)
      reads this, iwram, ewram, iwram.tags, ewram.tags
    {
      Ready(if flushed then {} else stack)
    }

    /** Puts an emitted block in place. */
    method PlaceBlock(b: Block, l: Loc, ghost stack: set<nat>)
      requires Sizes() && SpaceHolds(true) && CodeHolds(stack, Some(Coming(l, b.mode, b.entry)))
      requires Starts(b, l, b.mode, view) && ExitsInside(b) && b.entry == ptr + emit.prologue < b.end
      requires ptr + Least() <= b.end && b.end + LIMIT_THRESHOLD <= SlotFloor() + emit.gateMax
      modifies `ptr, `dirty, `code
      ensures SpaceHolds(false) && ptr == b.end && CodeHolds(stack + {b.entry}, None)
      ensures code == old(code)[b.entry := b] && b.entry !in old(code) && CodeKept(old(code), code, {})
    {
      hide Sound, CodeHolds, Starts, ExitsInside, CodeKept;
      dirty := dirty + {(ptr, b.end)};
      PutCode(b, l, stack);
    }

    method PutCode(b: Block, l: Loc, ghost stack: set<nat>)
      requires CodeHolds(stack, Some(Coming(l, b.mode, b.entry))) && lastPtr <= ptr <= b.entry < b.end
      requires Starts(b, l, b.mode, view) && ExitsInside(b)
      modifies `ptr, `code
      ensures ptr == b.end && CodeHolds(stack + {b.entry}, None)
      ensures code == old(code)[b.entry := b] && b.entry !in old(code) && CodeKept(old(code), code, {})
    {
      hide Entries, CodeLinked, Starts, ExitsInside, SlotAddress, CodePlaced, CodeKept;
      ghost var coming := Some(Coming(l, b.mode, b.entry));
      PlacedGrows(code, ptr, b);
      if !missed {
        CodeStaysLinked(code, stack, abandoned, view, bios, b.entry, b);
        EntriesGrow(iwram.tags[..], false, slots, cacheSize, code, code[b.entry := b], {}, view, coming);
        EntriesGrow(ewram.tags[..], true, slots, cacheSize, code, code[b.entry := b], {}, view, coming);
      }
      ptr := b.end;
      code := code[b.entry := b];
    }

    /** Where the block table says that the code for `l` is: in the entry that the tag at `l` names, if it is valid;
        zero if nowhere. */
    ghost function KnownAt(l: Loc, mode: Mode): nat
      reads `slots, iwram.tags, ewram.tags
    {
      if && l.i < MirrorOf(l).tags.Length && MirrorOf(l).tags[l.i] < 0x10000
         && AddressOf(l, SlotAddress(cacheSize, MirrorOf(l).tags[l.i]))
      then slots[SlotAddress(cacheSize, MirrorOf(l).tags[l.i])].For(mode) else 0
    }

    /** The tag at `l` is valid and names the entry at `address` of the block table. */
    ghost predicate AddressOf(l: Loc, address: int)
      reads `slots, iwram.tags, ewram.tags
    {
      && l.i < MirrorOf(l).tags.Length
      && var tag := MirrorOf(l).tags[l.i];
      ValidTag(tag) && tag < 0x10000 && SlotAddress(cacheSize, tag) == address && address in slots
    }

    /** Unless a flush has missed something, a valid tag was handed out since. */
    lemma LiveTag(l: Loc)
      requires SpaceHolds(false) && TagsHold({}) && MirrorsValid() && Sizes()
      requires l.i < MirrorOf(l).tags.Length && ValidTag(MirrorOf(l).tags[l.i])
      ensures MirrorOf(l).tags[l.i] < 0x10000 && AddressOf(l, SlotAddress(cacheSize, MirrorOf(l).tags[l.i]))
      ensures !missed ==> Live(MirrorOf(l).tags[l.i], blockTag)
    {
      hide SlotAddress, Sound;
      var tag := MirrorOf(l).tags[l.i];
      assert tag < 0x10000 && SlotAddress(cacheSize, tag) in slots;
    }

    /** The block at offset `o` translates the guest code at `pc`, scanned this way. */
    ghost predicate Translated(o: nat, pc: u32, mode: Mode, s: Scanned)
      reads `code, `guest
    {
      o in code && code[o].pc == pc && code[o].mode == mode && Translates(code[o], s, guest)
    }

    /** Translates the block at `pc`. `pending` holds its first halfword if its tag is new. Without a flush the block
        is in place, and is left with an exit unpatched exactly if a lookup in the other cache has
        failed. There is no flush if there is room for the block and it leads to no other code in RAM. */
    method TranslateBlock(pc: u32, mode: Mode, ghost pending: set<Loc>, ghost stack: set<nat>)
      returns (ok: bool, ghost s: Scanned)
      requires Sizes() && MirrorsValid() && SpaceHolds(true) && TagsHold(pending)
      requires view.isRam(pc) && view.align(pc, mode) == pc
      requires CodeHolds(stack, Some(Coming(view.place(pc), mode, ptr + emit.prologue)))
      requires pending <= {view.place(pc)}
      modifies this, iwram, ewram, iwram.tags, ewram.tags
      ensures After(stack, flushes > old(flushes)) && Stepped({}) && FailsIff(ok)
      ensures ok ==> flushes == old(flushes)
      ensures IsScanOf(s, guest, mode, pc)
      ensures flushes == old(flushes) ==>
                && ptr > old(ptr) && CodeTagged(pc, mode, |s.exits|)
                && Translated(old(ptr) + emit.prologue, pc, mode, s)
                && (old(ptr) + emit.prologue in abandoned <==> !ok)
      ensures AllQuiet(s, view) && old(Room(|s.exits|)) ==> flushes == old(flushes)
      ensures Single(s) && AllQuiet(s, view) && flushes == old(flushes) ==>
                InUse() == Widened(old(InUse()), view.place(pc))
      decreases cacheSize - ptr, 0, 0
    {
      hide MirrorsValid, TagsHold, Sound, NoValidTags, AllTagged, Tagged, CodeHolds, KeepsOutOfRom, Bounds.Most;
      hide InsideLinked, Translates, Starts, SameCode, AllAnswered, AllQuiet, KeptTags, KeptSlots, CodeKept;
      var scanned := Scan(guest, mode, pc);
      s := scanned;
      ghost var before := Now();
      var overflow, self := Build(pc, mode, scanned, pending, stack);
      if overflow {
        return false, s;
      }
      OffTheStack(stack, self);
      ghost var between := Now();
      ok := PatchExits(self, scanned, stack + {self});
      if flushes == old(flushes) {
        MemoryInTurn(before, between, Now(), cacheSize, {}, {self});
        KeptButOne(between.code, code, self);
        SameStarts(between.code[self], code[self], view.place(pc), mode, view);
        TranslationStays(between.code[self], code[self], s, guest);
        AllStayTagged(view, between.tags1, between.tags2, iwram.tags[..], ewram.tags[..], pc, mode, |s.exits|);
      }
    }

    /** Emits a scanned block and puts it in place with its exits inside patched; or flushes, if there is no room. */
    method Build(pc: u32, mode: Mode, s: Scanned, ghost pending: set<Loc>, ghost stack: set<nat>)
      returns (overflow: bool, self: nat)
      requires Sizes() && MirrorsValid() && SpaceHolds(true) && TagsHold(pending)
      requires view.isRam(pc) && view.align(pc, mode) == pc
      requires CodeHolds(stack, Some(Coming(view.place(pc), mode, ptr + emit.prologue)))
      requires pending <= {view.place(pc)} && IsScanOf(s, guest, mode, pc)
      modifies this, iwram, ewram, iwram.tags, ewram.tags
      ensures guest == old(guest) && asked == old(asked)
      ensures self == old(ptr) + emit.prologue && self !in old(code) && self !in stack
      ensures overflow ==> After({}, true) && Flushed() && flushes > old(flushes) && (old(missed) ==> missed)
      ensures !overflow ==>
                && Ready(stack + {self}) && self in code && flushes == old(flushes) && missed == old(missed)
                && ptr > old(ptr) && lastPtr == old(lastPtr) && blockTag == old(blockTag) && Kept({})
                && abandoned == old(abandoned)
                && CodeTagged(pc, mode, |s.exits|)
                && Starts(code[self], view.place(pc), mode, view) && Translated(self, pc, mode, s)
                && ToPatch(code[self])
      ensures old(Room(|s.exits|)) ==> !overflow
      ensures Single(s) && !overflow ==> InUse() == Widened(old(InUse()), view.place(pc))
      ensures !overflow ==> AllWithin(view, InUse(), pc, mode, |s.exits|)
    {
      hide MirrorsValid, TagsHold, Sound, NoValidTags, AllTagged, Tagged, CodeHolds, Bounds.Most, AllWithin, KeptTags;
      hide ExitsMatch, NoGateInside, Connected, Direct, Translated, Starts, ToPatch, CodeKept, InUse, Widened;
      hide Emitting, Fresh, Sizes, SpaceHolds, SlotFloor, IsScanOf, CodeTagged, KeptSlots;
      MemoryStays(Now(), cacheSize, {});
      ghost var coming := Some(Coming(view.place(pc), mode, ptr + emit.prologue));
      NotYet(stack, coming);
      ExitsOfScan(s, guest, mode, pc);
      self := ptr + emit.prologue;
      MarkScanned(pc, mode, |s.exits|, pending, stack, coming);
      var over, emitted, _ := EmitBlock(pc, mode, s, pending);
      overflow := over;
      if overflow {
        Flush();
        return;
      }
      FreshEntry(emitted, pc, mode, s, Emitting(guest, mode, pc, s), self);
      Install(emitted, pc, mode, s, stack);
    }

    /** Patches the exits inside a freshly emitted block and puts it in place. */
    method Install(emitted: Block, pc: u32, mode: Mode, ghost s: Scanned, ghost stack: set<nat>)
      requires Sizes() && SpaceHolds(true)
      requires Fresh(emitted, pc, mode, s, Emitting(guest, mode, pc, s), ptr + emit.prologue)
      requires CodeHolds(stack, Some(Coming(view.place(pc), mode, emitted.entry))) && IsScanOf(s, guest, mode, pc)
      requires view.isRam(pc) && view.align(pc, mode) == pc
      requires ptr + Least() <= emitted.end && emitted.end + LIMIT_THRESHOLD <= SlotFloor() + emit.gateMax
      modifies `ptr, `dirty, `code
      ensures SpaceHolds(false) && ptr == emitted.end > old(ptr) && CodeHolds(stack + {emitted.entry}, None)
      ensures CodeKept(old(code), code, {}) && emitted.entry in code
      ensures var b := code[emitted.entry];
              && Starts(b, view.place(pc), mode, view) && Translated(emitted.entry, pc, mode, s)
              && ToPatch(b)
    {
      hide SpaceHolds, Sound, CodeHolds, OffsetsRise, ExitsInside, CodeKept, IsScanOf, ToPatch;
      EndOfScan(s, guest, mode, pc);
      var block := PatchInternal(emitted);
      TranslationStays(emitted, block, s, guest);
      SameStarts(emitted, block, view.place(pc), mode, view);
      SameInside(emitted, block);
      PlaceBlock(block, view.place(pc), stack);
    }

    /** There is no block above the bump pointer. */
    lemma NotYet(stack: set<nat>, coming: Option<Coming>)
      requires CodeHolds(stack, coming)
      ensures ptr + emit.prologue !in code && ptr + emit.prologue !in stack
    {
    }

    /** Finds the code for every exit of a block that leads out of it, and patches it. If there is none for some exit,
        and not because of a flush, the block is abandoned. */
    method PatchExits(self: nat, ghost s: Scanned, ghost stack: set<nat>) returns (ok: bool)
      requires Ready(stack) && self in stack && self in code
      requires view.isRam(code[self].pc) && Translates(code[self], s, guest)
      requires ToPatch(code[self])
      modifies this, iwram, ewram, iwram.tags, ewram.tags
      ensures After(stack - {self}, flushes > old(flushes)) && Stepped({self}) && FailsIff(ok)
      ensures ok ==> flushes == old(flushes)
      ensures flushes == old(flushes) ==> (self in abandoned <==> !ok)
      ensures AllQuiet(s, view) ==> Undisturbed()
      decreases cacheSize - ptr, 3
    {
      hide MirrorsValid, TagsHold, Sound, NoValidTags, CodeHolds, KeepsOutOfRom, Translates, AllAnswered, Quiet;
      hide LinkGood, InsideLinked, LeadsToRom, SameCode, MemoryKept, CodeKept;
      ghost var block := code[self];
      NotAbandoned(self, stack);
      ghost var start := Now();
      MemoryStays(start, cacheSize, {self});
      CodeKeptAll(code, {self});
      KeptButOne(code, code, self);
      NoneAsked();
      var j := 0;
      while j < |code[self].exits|
        invariant 0 <= j <= |block.exits| && Ready(stack) && Stepped({self}) && flushes == old(flushes)
        invariant self in code && SameCode(block, code[self]) && |code[self].exits| == |block.exits|
        invariant !missed ==> forall i | 0 <= i < j :: LinkGood(code[self], code[self].exits[i], code, view, bios)
        invariant forall i | j <= i < |block.exits| :: code[self].exits[i] == block.exits[i]
        invariant Answered() && abandoned == old(abandoned)
        invariant AllQuiet(s, view) ==> Undisturbed()
        decreases |block.exits| - j
      {
        ExitAsScanned(block, code[self], s, guest, view, j);
        ghost var before, between, asked1 := code[self], Now(), asked;
        ok := PatchExit(self, j, stack);
        AnsweredInTurn(view, asked1, asked, |old(asked)|);
        if flushes == old(flushes) {
          MemoryInTurn(start, between, Now(), cacheSize, {self}, {self});
        }
        if !ok {
          return;
        }
        CodeOf(between, Now(), cacheSize, {self});
        KeptButOne(between.code, code, self);
        SameInTurn(block, before, code[self]);
        if !missed {
          ExitsStayGood(before, code[self], j, between.code, code, {self}, view, bios);
        }
        j := j + 1;
      }
      Finish(self, stack);
      ok := true;
    }

    lemma NotAbandoned(self: nat, stack: set<nat>)
      requires CodeHolds(stack, None) && self in stack
      ensures self !in abandoned
    {
    }

    lemma NoneAsked()
      ensures AllAnswered(view, asked, |asked|)
    {
    }

    /** A block all of whose exits are patched leaves the stack. */
    lemma Finish(self: nat, stack: set<nat>)
      requires Ready(stack) && self in stack && self in code && (!missed ==> Linked(code[self], code, view, bios))
      ensures Ready(stack - {self})
    {
      hide Linked, Unpatched, Entries, CodePlaced, Sizes, MirrorsValid, SpaceHolds, TagsHold;
    }

    /** Exit `j` of a block has been patched well, and the rest of the block is as it was. */
    twostate predicate Patched(self: nat, j: nat)
      requires self in old(code) && j < |old(code[self].exits)|
      reads `code, `missed
    {
      && self in code && |code[self].exits| == |old(code[self].exits)|
      && (!missed ==> LinkGood(code[self], code[self].exits[j], code, view, bios))
      && forall i | 0 <= i < |code[self].exits| && i != j :: code[self].exits[i] == old(code[self]).exits[i]
    }

    /** Patches exit `j` of a block, unless it stays inside the block. If there is no code for it, and not because
        of a flush, the block is left as it is. */
    method PatchExit(self: nat, j: nat, ghost stack: set<nat>) returns (ok: bool)
      requires Ready(stack) && self in stack && self in code && j < |code[self].exits|
      requires InsideLinked(code[self], code[self].exits[j])
      requires !StaysInside(code[self], code[self].exits[j]) ==> code[self].exits[j].link == Null
      requires KeepsOutOfRom(guest, view) && view.isRom(code[self].exits[j].branch.target) ==>
                 code[self].exits[j].branch.target == SWI_VECTOR
      modifies this, iwram, ewram, iwram.tags, ewram.tags
      ensures After(if ok then stack else stack - {self}, flushes > old(flushes)) && Stepped({self}) && FailsIff(ok)
      ensures ok ==> flushes == old(flushes) && Patched(self, j)
      ensures !ok && flushes == old(flushes) ==> self in abandoned
      ensures Quiet(view, old(code[self].exits[j].branch.target)) ==> Undisturbed()
      decreases cacheSize - ptr, 2, 1
    {
      hide MirrorsValid, TagsHold, Sound, NoValidTags, CodeHolds, KeepsOutOfRom, AllAnswered, Quiet;
      hide LeadsOut, MemoryKept, CodeKept;
      var b := code[self];
      ghost var start := Now();
      MemoryStays(start, cacheSize, {self});
      NoneAsked();
      NotAbandoned(self, stack);
      var target := b.exits[j].branch.target;
      if StaysInside(b, b.exits[j]) {
        return true;
      }
      var link := FindExit(target, b.mode, stack);
      if flushes == old(flushes) {
        BlockStays(start, Now(), cacheSize, self);
      }
      if link == Null {
        if flushes == old(flushes) {
          Abandon(self, j, stack);
        }
        return false;
      }
      ghost var between := Now();
      StorePatch(self, j, link, stack);
      MemoryPatched(between, Now(), cacheSize, self);
      MemoryInTurn(start, between, Now(), cacheSize, {self}, {self});
      if !missed {
        LeadsOutGrows(target, b.mode, link, between.code, code, {self}, view, bios);
      }
      ok := true;
    }

    /** Stores a patched branch of a block on the stack. */
    method StorePatch(self: nat, j: nat, link: Target, ghost stack: set<nat>)
      requires Ready(stack) && self in stack && self in code && j < |code[self].exits|
      modifies `code, `dirty
      ensures Ready(stack)
      ensures code == old(code)[self := Repointed(old(code[self]), j, link)] && CodeKept(old(code), code, {self})
    {
      hide MirrorsValid, TagsHold, Sound, CodeHolds, CodeKept;
      var b := code[self];
      InPlace(self, stack);
      dirty := dirty + {(b.exits[j].branch.lo, b.exits[j].branch.hi)};
      PutPatch(self, Repointed(b, j, link), stack);
    }

    /** A block on the stack lies below the bump pointer, and is still to be synchronised. */
    lemma InPlace(self: nat, stack: set<nat>)
      requires CodeHolds(stack, None) && self in stack
      ensures self in code && ExitsInside(code[self]) && lastPtr <= self == code[self].entry && code[self].end <= ptr
    {
    }

    method PutPatch(self: nat, patched: Block, ghost stack: set<nat>)
      requires CodeHolds(stack, None) && self in stack && self in code && SameCode(code[self], patched)
      modifies `code
      ensures CodeHolds(stack, None)
      ensures code == old(code)[self := patched] && CodeKept(old(code), code, {self})
    {
      hide Entries, CodeLinked, Starts, SlotAddress, CodePlaced, CodeKept, SameCode;
      PlacedPatched(code, ptr, self, patched);
      OnTheStack(stack, self);
      if !missed {
        CodeStaysLinked(code, stack, abandoned, view, bios, self, patched);
        EntriesGrow(iwram.tags[..], false, slots, cacheSize, code, code[self := patched], {self}, view, None);
        EntriesGrow(ewram.tags[..], true, slots, cacheSize, code, code[self := patched], {self}, view, None);
      }
      code := code[self := patched];
    }

    /** Leaves a block with an exit unpatched. */
    ghost method Abandon(self: nat, j: nat, stack: set<nat>)
      requires Ready(stack) && self in stack && self in code && j < |code[self].exits|
      requires code[self].exits[j].link == Null && code[self].exits[j].branch.target != SWI_VECTOR
      requires !StaysInside(code[self], code[self].exits[j])
      modifies `abandoned
      ensures Ready(stack - {self}) && abandoned == old(abandoned) + {self}
    {
      hide Linked, Entries, CodePlaced, Sizes, MirrorsValid, SpaceHolds, TagsHold, StaysInside;
      abandoned := abandoned + {self};
    }

    /** The code an exit leads to: the BIOS entry, a block in RAM, or a block in ROM. */
    method FindExit(target: u32, mode: Mode, ghost stack: set<nat>) returns (link: Target)
      requires Ready(stack) && (KeepsOutOfRom(guest, view) && view.isRom(target) ==> target == SWI_VECTOR)
      modifies this, iwram, ewram, iwram.tags, ewram.tags
      ensures After(stack, flushes > old(flushes)) && Stepped({})
      ensures link != Null ==> flushes == old(flushes) && (!missed ==> LeadsOut(target, mode, link, code, view, bios))
      ensures link == Null ==> target != SWI_VECTOR
      ensures flushes == old(flushes) ==> (link != Null <==> Answered())
      ensures Quiet(view, target) ==> Undisturbed()
      decreases cacheSize - ptr, 2, 0
    {
      hide MirrorsValid, TagsHold, Sound, NoValidTags, CodeHolds, KeepsOutOfRom, Starts, AllAnswered, IsAnswer;
      hide MemoryKept;
      MemoryStays(Now(), cacheSize, {});
      NoneAsked();
      if target == 8 {
        link := bios;
      } else if view.isRam(target) {
        link := LookupTranslate(target, mode, stack);
      } else if view.isRom(target) {
        link := LookupElsewhere(target, mode, stack);
      } else {
        link := Unmapped;
      }
    }

    /** A lookup in the ROM cache, which RAM code that leads there makes. */
    method LookupElsewhere(target: u32, mode: Mode, ghost stack: set<nat>) returns (link: Target)
      requires Ready(stack) && !KeepsOutOfRom(guest, view)
      modifies this, iwram, ewram, iwram.tags, ewram.tags
      ensures After(stack, flushes > old(flushes)) && Stepped({})
      ensures link.Null? || link.Beyond?
      ensures link.Beyond? ==> flushes == old(flushes) && IsAnswer(view, Question(target, mode), link.entry)
      ensures flushes == old(flushes) ==> (link.Beyond? <==> Answered())
      ensures Quiet(view, target) ==> Undisturbed()
      decreases cacheSize - ptr, 1, |view.elsewhere(|asked|, Question(target, mode)).visits| + 1
    {
      hide MirrorsValid, TagsHold, Sound, NoValidTags, CodeHolds, KeepsOutOfRom, Starts, MemoryKept;
      var question := Question(target, mode);
      var outcome := view.elsewhere(|asked|, question);
      asked := asked + [question];
      ghost var asked1 := asked;
      link := Visit(outcome.visits, outcome.entry, stack);
      AnsweredInTurn(view, asked1, asked, |old(asked)|);
      assert view.elsewhere(|old(asked)|, asked1[|old(asked)|]) == outcome;
      assert AllAnswered(view, asked1, |old(asked)|) <==> outcome.entry.Some?;
    }

    /** Looks up the code in RAM that a lookup in the ROM cache comes to on its way, until there is none for some of
        it. */
    method Visit(visits: seq<Question>, entry: Option<nat>, ghost stack: set<nat>) returns (link: Target)
      requires Ready(stack) && !KeepsOutOfRom(guest, view)
      modifies this, iwram, ewram, iwram.tags, ewram.tags
      ensures After(stack, flushes > old(flushes)) && Stepped({})
      ensures link.Null? || link.Beyond?
      ensures link.Beyond? ==> flushes == old(flushes) && entry == Some(link.entry)
      ensures flushes == old(flushes) ==> (link.Beyond? <==> entry.Some? && Answered())
      ensures visits == [] ==> unchanged(this, iwram, ewram, iwram.tags, ewram.tags)
      decreases cacheSize - ptr, 1, |visits|
    {
      hide MirrorsValid, TagsHold, Sound, NoValidTags, CodeHolds, KeepsOutOfRom, Starts, MemoryKept, AllAnswered;
      ghost var start := Now();
      MemoryStays(start, cacheSize, {});
      NoneAsked();
      if visits == [] {
        return if entry.Some? then Beyond(entry.value) else Null;
      }
      if view.isRam(visits[0].target) {
        var r := LookupTranslate(visits[0].target, visits[0].mode, stack);
        if r.Null? {
          return Null;
        }
      }
      ghost var between, asked1 := Now(), asked;
      link := Visit(visits[1..], entry, stack);
      AnsweredInTurn(view, asked1, asked, |old(asked)|);
      if flushes == old(flushes) {
        MemoryInTurn(start, between, Now(), cacheSize, {}, {});
      }
    }

    /** The entry of the block table for the code at `l`, through its tag. A tag and an empty entry are
        handed out when there is no valid tag yet. */
    method OpenSlot(l: Loc, mode: Mode, ghost stack: set<nat>) returns (address: int, ghost pending: set<Loc>)
      requires Ready(stack) && l.i < MirrorOf(l).tags.Length && (mode.Arm? ==> l.i + 1 < MirrorOf(l).tags.Length)
      modifies `slots, `blockTag, `handedOut, `holder, iwram.tags, ewram.tags
      ensures Sizes() && MirrorsValid() && SpaceHolds(true) && TagsHold(pending) && pending <= {l}
      ensures CodeHolds(stack, None) && Kept({}) && AddressOf(l, address)
      ensures slots[address] != Slot(0, 0) ==> SpaceHolds(false) && pending == {}
      ensures old(ValidTag(MirrorOf(l).tags[l.i])) ==>
                slots == old(slots) && address == old(SlotAddress(cacheSize, MirrorOf(l).tags[l.i]))
      ensures !old(ValidTag(MirrorOf(l).tags[l.i])) ==>
                slots[address] == Slot(0, 0) && MirrorOf(l).tags[l.i] == old(blockTag)
      ensures !missed ==> Live(MirrorOf(l).tags[l.i], blockTag)
      ensures SlotFloor() >= old(SlotFloor()) - SLOT_SIZE
    {
      hide Sound, SameValidTags, TagsOwned, SlotAddress, CodeHolds, MemoryKept, KeptTags;
      pending := {};
      ghost var before := Now();
      MemoryStays(before, cacheSize, {});
      if !ValidTag(MirrorOf(l).tags[l.i]) {
        AllocateTag(l, mode, stack);
        MemoryOpened(before, Now(), cacheSize);
        pending := {l};
      } else {
        LiveTag(l);
      }
      address := SlotAddress(cacheSize, MirrorOf(l).tags[l.i]);
    }

    /** The code of the block at `l` if there is some; otherwise its entry is filled in with where the code
        is about to be put. */
    method Claim(l: Loc, mode: Mode, ghost stack: set<nat>)
      returns (offset: nat, found: bool, ghost address: int, ghost pending: set<Loc>)
      requires Ready(stack) && l.i < MirrorOf(l).tags.Length && (mode.Arm? ==> l.i + 1 < MirrorOf(l).tags.Length)
      modifies `slots, `blockTag, `handedOut, `holder, iwram.tags, ewram.tags
      ensures Sizes() && MirrorsValid() && SpaceHolds(true) && TagsHold(pending) && pending <= {l}
      ensures CodeHolds(stack, if found then None else Some(Coming(l, mode, offset)))
      ensures Kept({}) && AddressOf(l, address) && slots[address].For(mode) == offset
      ensures found ==> Ready(stack) && KnownAt(l, mode) == offset != 0
      ensures found && !missed ==> offset in code && Starts(code[offset], l, mode, view)
      ensures !found ==> offset == ptr + emit.prologue
      ensures old(KnownAt(l, mode)) != 0 ==> found && offset == old(KnownAt(l, mode))
      ensures !missed ==> Live(MirrorOf(l).tags[l.i], blockTag)
      ensures !old(ValidTag(MirrorOf(l).tags[l.i])) ==>
                !found && SlotFloor() >= old(SlotFloor()) - SLOT_SIZE && MirrorOf(l).tags[l.i] == old(blockTag)
    {
      hide Sound, SameValidTags, TagsOwned, SlotAddress, CodeHolds, MemoryKept;
      var at;
      ghost var before := Now();
      at, pending := OpenSlot(l, mode, stack);
      address := at;
      offset := slots[at].For(mode);
      found := offset != 0;
      if !found {
        ghost var between := Now();
        offset := ptr + emit.prologue;
        FillIn(l, mode, at, offset, pending, stack);
        MemoryFilled(between, cacheSize, at, mode, offset);
        MemoryInTurn(before, between, Now(), cacheSize, {}, {});
      } else {
        if !missed {
          EntryNamesCode(l, mode, stack);
        }
      }
    }

    /** The entry that the valid tag at `l` names is for the code at `l`. */
    lemma EntryNamesCode(l: Loc, mode: Mode, stack: set<nat>)
      requires CodeHolds(stack, None) && !missed
      requires l.i < MirrorOf(l).tags.Length && ValidTag(MirrorOf(l).tags[l.i])
      ensures EntryGood(MirrorOf(l).tags[l.i], l, mode, slots, cacheSize, code, view, None)
    {
    }

    /** Fills in the entry at `at`, which the tag at `l` names, with where the code is about to be put. */
    method FillIn(l: Loc, mode: Mode, at: int, offset: nat, ghost pending: set<Loc>, ghost stack: set<nat>)
      requires CodeHolds(stack, None) && TagsHold(pending) && AddressOf(l, at)
      modifies `slots
      ensures CodeHolds(stack, Some(Coming(l, mode, offset))) && TagsHold(pending)
      ensures slots == old(slots)[at := old(slots)[at].With(mode, offset)]
    {
      hide CodePlaced, CodeLinked, Entries, SlotAddress;
      if !missed {
        ghost var c := Coming(l, mode, offset);
        ghost var tag := MirrorOf(l).tags[l.i];
        assert MirrorOf(l).tags[..][l.i] == tag;
        EntriesAfterClaim(iwram.tags[..], false, slots, cacheSize, code, view, holder, blockTag, iwram.codeMin,
                          iwram.codeMax, pending, tag, c);
        EntriesAfterClaim(ewram.tags[..], true, slots, cacheSize, code, view, holder, blockTag, ewram.codeMin,
                          ewram.codeMax, pending, tag, c);
      }
      slots := slots[at := slots[at].With(mode, offset)];
    }

    /** The code at a halfword has a tag, and the bounds have grown to include it and no more. */
    twostate predicate MarkedAlone(l: Loc)
      reads `blockTag, iwram, ewram, iwram.tags, ewram.tags
    {
      && l.i < MirrorOf(l).tags.Length && ValidTag(MirrorOf(l).tags[l.i])
      && MirrorOf(l).tags[l.i] == old(blockTag) && InUse() == Widened(old(InUse()), l)
    }

    /** The code at a halfword is to be translated for the first time, and there is room for any block. */
    ghost predicate Unseen(l: Loc)
      reads `ptr, `blockTag, iwram.tags, ewram.tags
    {
      && l.i < MirrorOf(l).tags.Length && !ValidTag(MirrorOf(l).tags[l.i])
      && ptr + emit.headMax + emit.Most(MAX_BLOCK_SIZE) + LIMIT_THRESHOLD + SLOT_SIZE <= SlotFloor()
    }

    /** The code at an address is to be translated for the first time, which takes no other code in RAM. */
    ghost predicate Unhindered(pc: u32, mode: Mode)
      reads `guest, `ptr, `blockTag, iwram.tags, ewram.tags
    {
      Unseen(LocOf(pc, mode)) && Apart(guest, view, mode, view.align(pc, mode))
    }

    /** The block at offset `o` translates the guest code at `pc`. */
    ghost predicate Made(o: nat, pc: u32, mode: Mode)
      reads `code, `guest
    {
      o in code && code[o].pc == pc && code[o].mode == mode && IsTranslation(code[o], guest)
    }

    /** The new block at offset `o` is the result, or there is none and that block is abandoned. */
    ghost predicate Added(o: nat, pc: u32, mode: Mode, r: Target)
      reads `code, `guest, `abandoned
    {
      Made(o, pc, mode) && r == if o in abandoned then Null else At(o)
    }

    /** Looks up the block for a RAM address through its tag, translating it when needed. */
    method LookupTranslate(pc: u32, mode: Mode, ghost stack: set<nat>) returns (r: Target)
      requires Ready(stack) && view.isRam(pc)
      modifies this, iwram, ewram, iwram.tags, ewram.tags
      ensures After(stack, flushes > old(flushes)) && Stepped({}) && FailsIff(r.At?)
      ensures r.Null? || r.At?
      ensures r.At? ==> flushes == old(flushes)
      ensures r.At? && !missed ==> r.offset in code && IsFor(code[r.offset], pc, mode, view)
      ensures r.At? && !missed ==> Starts(code[r.offset], LocOf(pc, mode), mode, view)
      ensures flushes == old(flushes) && ptr > old(ptr) ==>
                Added(old(ptr) + emit.prologue, view.align(pc, mode), mode, r)
      ensures flushes == old(flushes) && ptr > old(ptr) && old(ptr) + emit.prologue > 0 && !missed ==>
                KnownAt(LocOf(pc, mode), mode) == old(ptr) + emit.prologue
      ensures flushes == old(flushes) && ptr == old(ptr) ==>
                r.At? && KnownAt(LocOf(pc, mode), mode) == r.offset != 0
      ensures old(KnownAt(LocOf(pc, mode), mode)) != 0 ==>
                r == At(old(KnownAt(LocOf(pc, mode), mode))) && unchanged(`ptr, `code, `abandoned, `asked)
      ensures old(Unhindered(pc, mode)) ==>
                && flushes == old(flushes) && ptr > old(ptr)
                && (Short(guest, mode, view.align(pc, mode)) ==> MarkedAlone(LocOf(pc, mode)))
      decreases cacheSize - ptr, 1, 0
    {
      hide Sound, NoValidTags, TagsOwned, SlotAddress, CodeHolds, KeepsOutOfRom, InUse, Widened, Bounds.Most;
      hide Apart, Short, IsFor;
      hide MemoryKept, KnownAt, Sizes, MirrorsValid, SpaceHolds, TagsHold, AllAnswered, IsTranslation;
      ghost var before := Now();
      var start := view.align(pc, mode);
      InMirror(pc, mode, stack);
      NoneAsked();
      var offset, found, address, pending := Claim(LocOf(pc, mode), mode, stack);
      if found {
        if !missed {
          BlockIsFor(offset, pc, mode);
        }
        return At(offset);
      }
      ghost var between := Now();
      r := Fill(start, mode, offset, address, pending, stack);
      if flushes == old(flushes) {
        MemoryInTurn(before, between, Now(), cacheSize, {}, {});
      }
      if r.At? {
        BlockIsFor(r.offset, pc, mode);
      }
    }

    lemma BlockIsFor(offset: nat, pc: u32, mode: Mode)
      requires Sizes() && view.isRam(pc) && offset in code && Starts(code[offset], LocOf(pc, mode), mode, view)
      ensures IsFor(code[offset], pc, mode, view)
    {
      StartsIsFor(code[offset], pc, mode, view);
    }

    /** Every instruction of RAM has its halfword in a mirror. */
    lemma InMirror(pc: u32, mode: Mode, stack: set<nat>)
      requires Ready(stack) && view.isRam(pc)
      ensures view.isRam(view.align(pc, mode)) && view.align(view.align(pc, mode), mode) == view.align(pc, mode)
      ensures var l := LocOf(pc, mode); l.i + (if mode.Arm? then 1 else 0) < MirrorOf(l).tags.Length
    {
      PlacedInRange(view, pc, mode);
      StaysRam(view, pc, mode);
      AlignTwice(view, pc, mode);
    }

    /** Translates a block whose entry has been filled in already. */
    method Fill(start: u32, mode: Mode, offset: nat, ghost address: int, ghost pending: set<Loc>, ghost stack: set<nat>)
      returns (r: Target)
      requires Sizes() && MirrorsValid() && SpaceHolds(true) && TagsHold(pending)
      requires view.isRam(start) && view.align(start, mode) == start
      requires offset == ptr + emit.prologue && CodeHolds(stack, Some(Coming(view.place(start), mode, offset)))
      requires pending <= {view.place(start)} && AddressOf(view.place(start), address)
      requires slots[address].For(mode) == offset
      requires !missed ==> Live(MirrorOf(view.place(start)).tags[view.place(start).i], blockTag)
      modifies this, iwram, ewram, iwram.tags, ewram.tags
      ensures After(stack, flushes > old(flushes)) && Stepped({}) && FailsIff(r.At?)
      ensures r == At(offset) || r == Null
      ensures r.At? ==> flushes == old(flushes)
      ensures flushes == old(flushes) ==>
                && ptr > old(ptr) && Added(offset, start, mode, r)
                && MirrorOf(view.place(start)).tags[view.place(start).i] ==
                   old(MirrorOf(view.place(start)).tags[view.place(start).i])
      ensures flushes == old(flushes) && offset != 0 && !missed ==> KnownAt(view.place(start), mode) == offset
      ensures Apart(guest, view, mode, start) ==>
                && (old(Room(MAX_BLOCK_SIZE)) ==> flushes == old(flushes))
                && (flushes == old(flushes) && Short(guest, mode, start) ==>
                      InUse() == Widened(old(InUse()), view.place(start)))
      decreases cacheSize - ptr, 0, 1
    {
      hide Sound, NoValidTags, TagsHold, SlotAddress, AllTagged, Tagged, CodeTagged, IsScanOf, Translates, CodeHolds;
      hide KeepsOutOfRom, InUse, Widened, Bounds.Most, Apart, Short, SpaceHolds, CodeKept, AllAnswered, AllQuiet;
      ghost var apart := Apart(guest, view, mode, start);
      var ok, s := TranslateBlock(start, mode, pending, stack);
      if apart {
        ApartIsQuiet(s, guest, view, mode, start);
        emit.MostRises(|s.exits|, MAX_BLOCK_SIZE);
      }
      r := if ok then At(offset) else Null;
    }

    /** Synchronises the instruction cache over [from, to), which covers every byte emitted or patched
        since the last time. */
    method SyncICache() returns (from: nat, to: nat)
      requires Ready({})
      modifies `lastPtr, `dirty
      ensures Ready({}) && dirty == {} && lastPtr == ptr
      ensures forall range | range in old(dirty) :: from <= range.0 < range.1 <= to
    {
      hide Sizes, MirrorsValid, TagsHold;
      from, to := lastPtr, ptr;
      if lastPtr < ptr {
        lastPtr := ptr;
      }
      dirty := {};
    }

    /** Exactly the abandoned blocks are not linked. */
    ghost predicate ExactlyAbandoned()
      reads `code, `abandoned
    {
      forall o | o in code :: Linked(code[o], code, view, bios) <==> o !in abandoned
    }

    /** The result is a new block, with an exit unpatched exactly if a lookup in the other cache has failed. */
    twostate predicate Yielded(r: Target, pc: u32, mode: Mode)
      reads `code, `guest, `abandoned, `asked, `ptr
    {
      && r == At(old(ptr) + emit.prologue) && Made(r.offset, view.align(pc, mode), mode)
      && (r.offset in abandoned <==> !Answered())
    }

    /** The entry point of the translated code: the code for a RAM address, trying up to four times. A try
        fails when this cache overflows and is flushed, or when a lookup in the other cache fails. In the second case
        the next try finds the block that the first has abandoned. Afterwards exactly the abandoned blocks have
        exits that are not patched. */
    method LookupAddress(pc: u32, mode: Mode) returns (r: Target)
      requires Ready({}) && view.isRam(pc)
      modifies this, iwram, ewram, iwram.tags, ewram.tags
      ensures Ready({}) && old(flushes) <= flushes && (old(missed) ==> missed) && guest == old(guest)
      ensures r.Null? || r.At?
      ensures r.At? ==> dirty == {}
      ensures r.At? && !missed ==> r.offset in code && IsFor(code[r.offset], pc, mode, view)
      ensures r.At? && !missed ==> Starts(code[r.offset], LocOf(pc, mode), mode, view)
      ensures !missed ==> ExactlyAbandoned()
      ensures flushes == old(flushes) ==> missed == old(missed) && (abandoned == old(abandoned) <==> Answered())
      ensures KeepsOutOfRom(guest, view) ==> asked == old(asked) && (old(abandoned) == {} ==> abandoned == {})
      ensures flushes == old(flushes) && !missed && 0 < old(ptr) + emit.prologue ==>
                r.At? && (ptr > old(ptr) ==> Yielded(r, pc, mode))
      ensures old(Unhindered(pc, mode)) ==>
                !old(missed) && 0 < old(ptr) + emit.prologue ==> flushes == old(flushes) && ptr > old(ptr)
      ensures r.At? && r.offset != 0 && !missed ==> KnownAt(LocOf(pc, mode), mode) == r.offset
      ensures old(KnownAt(LocOf(pc, mode), mode)) != 0 ==>
                r == At(old(KnownAt(LocOf(pc, mode), mode))) && unchanged(`ptr, `code, `abandoned, `asked, `flushes)
    {
      hide Sizes, MirrorsValid, TagsHold, SpaceHolds, KnownAt, NoValidTags, CodeHolds, Starts, KeepsOutOfRom;
      hide AllAnswered, Unhindered, IsTranslation, Linked, MarkedAlone, MemoryKept, Made, ExactlyAbandoned, Now;
      r := Null;
      ghost var o := ptr + emit.prologue;
      ghost var first := Unhindered(pc, mode) && !missed && 0 < o;
      NoneAsked();
      var i := 0;
      while i < 4
        invariant Ready({}) && r == Null && old(flushes) <= flushes && (old(missed) ==> missed) && guest == old(guest)
        invariant old(asked) <= asked && (KeepsOutOfRom(guest, view) ==> asked == old(asked))
        invariant KeepsOutOfRom(guest, view) && old(abandoned) == {} ==> abandoned == {}
        invariant flushes == old(flushes) ==> missed == old(missed) && old(abandoned) <= abandoned
        invariant i == 0 ==> unchanged(this, iwram, ewram, iwram.tags, ewram.tags)
        invariant i > 0 && flushes == old(flushes) ==> !Answered() && abandoned != old(abandoned) && ptr > old(ptr)
        invariant i > 0 && flushes == old(flushes) && !missed && 0 < o ==>
                    i == 1 && KnownAt(LocOf(pc, mode), mode) == o && Added(o, view.align(pc, mode), mode, Null)
        invariant i > 0 && first ==> i == 1 && flushes == old(flushes)
        invariant i > 0 ==> old(KnownAt(LocOf(pc, mode), mode)) == 0
      {
        ghost var asked1 := asked;
        r := LookupTranslate(pc, mode, {});
        AnsweredInTurn(view, asked1, asked, |old(asked)|);
        if r.At? {
          break;
        }
        i := i + 1;
      }
      if !missed {
        LinkedUnlessAbandoned();
      }
      if r.At? {
        var _, _ := SyncICache();
      }
    }

    /** With no block under way, exactly the abandoned blocks have an exit that is not patched. */
    lemma LinkedUnlessAbandoned()
      requires CodeHolds({}, None) && !missed
      ensures ExactlyAbandoned()
    {
      hide Linked, Unpatched, Entries, CodePlaced;
      forall o | o in code && o in abandoned
        ensures !Linked(code[o], code, view, bios)
      {
        UnpatchedIsNotLinked(code[o], code, view, bios);
      }
    }
  }

  // ----------------------------------------------------------------------------------------------
  // A run into the corner
  // ----------------------------------------------------------------------------------------------

  /** A return to the caller, BX r14. */
  const RETURN: u32 := 0xE12FFF1E

  /** Bounds of a small emitter with a prologue. */
  const SMALL := Bounds(16, 64, 64, 8, 10, 32)

  /** Code memory full of returns. */
  const RETURNS := Guest((pc: u32) => RETURN, (pc: u32) => 0x4770, [], DECODER)

  lemma ReturnIsShort(start: u32)
    ensures Apart(RETURNS, RAM_VIEW, Arm, start) && Short(RETURNS, Arm, start)
  {
    assert ArmExitPoint(RETURN) && IsUnconditional(Arm, RETURN) && DirectExit(Arm, RETURN, 0, start).None?;
    forall s: Scanned | IsScanOf(s, RETURNS, Arm, start)
      ensures Single(s) && AllQuiet(s, RAM_VIEW)
    {
      assert LastOpcode(RETURNS, Arm, start, 1) == RETURN;
      assert |s.exits| > 1 ==> Reached(s.exits, RETURNS, Arm, start, 1);
      assert s.exits[0] == ExitOf(RETURNS, Arm, start, 0);
      assert s.exits == [None];
    }
  }

  /** After a flush, a function that only returns is called at the start of external RAM; the next flush keeps
      its tag, which is the very tag that will be handed out next. */
  method RunIntoTheCorner() returns (c: RamCache)
    ensures fresh(c) && c.flushes == 2 && c.missed
    ensures c.ewram.tags.Length > 0 && c.ewram.tags[0] == c.blockTag == INITIAL_TOP_TAG
  {
    c := new RamCache(RETURNS, NOWHERE, SMALL, MAX_CACHE_SIZE, 16);
    CallReturn(c);
  }

  method CallReturn(c: RamCache)
    requires c.Ready({}) && !c.missed && c.flushes == 0 && c.iwram.codeMax > 0 && c.ewram.codeMax > 0
    requires c.guest == RETURNS && c.view == RAM_VIEW && c.cacheSize == MAX_CACHE_SIZE && c.emit == SMALL
    modifies c, c.iwram, c.ewram, c.iwram.tags, c.ewram.tags
    ensures c.flushes == 2 && c.missed && c.blockTag == INITIAL_TOP_TAG
    ensures c.ewram.tags.Length > 0 && c.ewram.tags[0] == INITIAL_TOP_TAG
  {
    hide AfterFlush, NoValidTag, TagsOwned, SlotsPresent, HolderHolds, SlotAddress, RAM_VIEW;
    c.Flush();
    TranslateReturn(c);
    NotCleared(c.ewram.tags[..], c.ewram.codeMin);
    c.Flush();
    assert c.ewram.tags[..][0] == INITIAL_TOP_TAG;
  }

  method TranslateReturn(c: RamCache)
    requires c.Ready({}) && c.Flushed() && !c.missed && c.ewram.codeMin == NO_MINIMUM && c.ewram.codeMax == 0
    requires c.guest == RETURNS && c.view == RAM_VIEW && c.cacheSize == MAX_CACHE_SIZE && c.emit == SMALL
    modifies c, c.iwram, c.ewram, c.iwram.tags, c.ewram.tags
    ensures c.Ready({}) && c.flushes == old(c.flushes) && c.ewram.codeMax == 0
    ensures c.ewram.tags.Length > 0 && c.ewram.tags[0] == INITIAL_TOP_TAG
  {
    hide Apart, Short, NoValidTag, TagsOwned, SlotsPresent, HolderHolds, SlotAddress, KeptTags, KeptSlots;
    FirstIsUnseen(c);
    ReturnIsShort(0x2000000);
    FirstOfEwram(c);
    hide RAM_VIEW;
    var _ := c.LookupTranslate(0x2000000, Arm, {});
  }

  lemma FirstIsUnseen(c: RamCache)
    requires c.MirrorsValid() && c.NoValidTags() && c.ptr == 0 && c.blockTag == INITIAL_TOP_TAG
    requires c.cacheSize == MAX_CACHE_SIZE && c.emit == SMALL
    ensures c.Unseen(Loc(true, 0))
  {
    assert c.emit.Most(MAX_BLOCK_SIZE) == MAX_BLOCK_SIZE * 72;
    assert !ValidTag(c.ewram.tags[..][0]);
  }

  lemma FirstOfEwram(c: RamCache)
    requires c.view == RAM_VIEW
    ensures RAM_VIEW.align(0x2000000, Arm) == 0x2000000 && c.LocOf(0x2000000, Arm) == Loc(true, 0)
    ensures c.MirrorOf(Loc(true, 0)) == c.ewram && RAM_VIEW.isRam(0x2000000)
  {
  }

  lemma NotCleared(tags: seq<nat>, codeMin: nat)
    requires tags != []
    ensures AfterFlush(tags, codeMin, 0) == tags
  {
  }

  // ----------------------------------------------------------------------------------------------
  // A run in which a block is abandoned
  // ----------------------------------------------------------------------------------------------

  /** At the start of external RAM, a branch to 0x100 in the BIOS. */
  const TO_BIOS: u32 := 0xEA80003E

  const BRANCHES := Guest((pc: u32) => TO_BIOS, (pc: u32) => 0x4770, [], DECODER)

  lemma BranchAtStart()
    ensures OpcodeAt(BRANCHES, Arm, 0x2000000) == TO_BIOS && PcAt(Arm, 0x2000000, 0) == 0x2000000
    ensures LastOpcode(BRANCHES, Arm, 0x2000000, 1) == TO_BIOS && PcAt(Arm, 0x2000000, 1) == 0x2000004
    ensures ExitOf(BRANCHES, Arm, 0x2000000, 0) == Some(0x100) && Ends(BRANCHES, Arm, TO_BIOS)
  {
    assert ArmExitPoint(TO_BIOS) && IsUnconditional(Arm, TO_BIOS);
    assert DirectExit(Arm, TO_BIOS, 0, 0x2000000) == Some(0x100);
  }

  lemma BranchScan(s: Scanned)
    requires IsScanOf(s, BRANCHES, Arm, 0x2000000)
    ensures s.exits == [Some(0x100)] && s.targets == [0x100] && s.endPc == 0x2000004
    ensures Emitting(BRANCHES, Arm, 0x2000000, s) == [true]
  {
    hide PcAt, OpcodeAt, LastOpcode, ExitOf, Ends, BRANCHES;
    BranchAtStart();
    assert |s.exits| > 1 ==> Reached(s.exits, BRANCHES, Arm, 0x2000000, 1);
    assert s.exits == [Some(0x100)] && s.exits[..0] == [] && s.exits[..1] == s.exits;
    DirectOne(s.exits, 0);
    BranchEmits(s);
  }

  lemma BranchEmits(s: Scanned)
    requires s.exits == [Some(0x100)]
    ensures Emitting(BRANCHES, Arm, 0x2000000, s) == [true]
  {
  }

  lemma BranchIsApart()
    ensures Apart(BRANCHES, RAM_VIEW, Arm, 0x2000000)
  {
    forall s: Scanned | IsScanOf(s, BRANCHES, Arm, 0x2000000)
      ensures AllQuiet(s, RAM_VIEW)
    {
      BranchScan(s);
    }
  }

  lemma BranchExit(b: Block)
    requires b.pc == 0x2000000 && b.mode == Arm && IsTranslation(b, BRANCHES)
    ensures |b.exits| == 1 && b.exits[0].branch.target == 0x100 && b.endPc == 0x2000004
  {
    hide IsScanOf, PcAt, Emitting, OffsetsRise, InOwnCode;
    var s: Scanned :| Translates(b, s, BRANCHES);
    BranchScan(s);
    assert Count([true]) == 1;
    assert BranchesOf(b.exits)[0] == b.exits[0].branch;
  }

  /** Beside a cache in which every lookup fails, the block of this branch cannot be linked. */
  lemma BranchIsNotLinked(b: Block, code: map<nat, Block>, bios: Target)
    requires b.pc == 0x2000000 && b.mode == Arm && IsTranslation(b, BRANCHES)
    ensures !Linked(b, code, RAM_VIEW, bios)
  {
    hide IsTranslation;
    BranchExit(b);
    assert !LinkGood(b, b.exits[0], code, RAM_VIEW, bios);
  }

  /** Right after start-up a branch to the BIOS is looked up, while lookups in the other cache fail. The second try
      finds the block that the first has abandoned, and so does every later lookup. */
  method RunIntoTheBios() returns (c: RamCache, r: Target, later: Target)
    ensures fresh(c) && !c.missed && c.flushes == 0
    ensures r.At? && later == r
    ensures r.offset in c.code && c.code[r.offset].pc == 0x2000000 && r.offset in c.abandoned
    ensures !Linked(c.code[r.offset], c.code, c.view, c.bios)
  {
    hide Linked;
    c := new RamCache(BRANCHES, NOWHERE, SMALL, MAX_CACHE_SIZE, 16);
    r := CallBios(c);
    later := c.LookupAddress(0x2000000, Arm);
    BranchIsNotLinked(c.code[r.offset], c.code, c.bios);
  }

  method CallBios(c: RamCache) returns (r: Target)
    requires c.Ready({}) && c.Flushed() && !c.missed && c.flushes == 0
    requires c.guest == BRANCHES && c.view == RAM_VIEW && c.cacheSize == MAX_CACHE_SIZE && c.emit == SMALL
    modifies c, c.iwram, c.ewram, c.iwram.tags, c.ewram.tags
    ensures c.Ready({}) && !c.missed && c.flushes == 0 && c.guest == BRANCHES
    ensures r.At? && r.offset != 0 && r.offset in c.abandoned && c.Made(r.offset, 0x2000000, Arm)
    ensures RAM_VIEW.isRam(0x2000000) && c.KnownAt(c.LocOf(0x2000000, Arm), Arm) == r.offset
  {
    hide Apart, NoValidTag, Linked, IsTranslation, TagsOwned, SlotAddress, HolderHolds, SlotsPresent;
    FirstIsUnseen(c);
    BranchIsApart();
    FirstOfEwram(c);
    hide RAM_VIEW;
    r := c.LookupAddress(0x2000000, Arm);
    BranchIsNotLinked(c.code[r.offset], c.code, c.bios);
  }
}
