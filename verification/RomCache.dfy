/** The ROM translation cache: a bump-allocated code buffer with a chained hash index, filled by
    mutual recursion between looking a block up and translating it, and wiped when it overflows. */
module RomCache {
  import opened Basics
  import opened Word32
  import opened BlockScan
  import Interp = ThumbFlags
  import opened Emitter
  import opened Blocks

  const HASH_SIZE := 0x10000
  const HEADER_SIZE := 8
  const INITIAL_WATERMARK := 16
  const LIMIT_THRESHOLD := 2048

  /** The header in front of each block: its key, and the offset of the next block in its chain. */
  datatype Header = Header(pcValue: u32, nextEntry: nat)

  function Align(pc: u32, mode: Mode): u32 { AlignDown(pc, Width(mode)) }

  /** The key of a block: its address, with the lowest bit telling the instruction set. */
  function KeyOf(pc: u32, mode: Mode): u32 {
    if mode.Arm? then Align(pc, mode) else Align(pc, mode) + 1
  }

  function Slot(key: u32): (s: nat)
    ensures s < HASH_SIZE
  {
    Times(key, 2654435761) / 0x10000
  }

  /** How the cache looks at guest addresses. */
  datatype Addressing = Addressing(
    isRom: u32 -> bool,
    isRam: u32 -> bool,
    align: (u32, Mode) -> u32,
    keyOf: (u32, Mode) -> u32,
    slotOf: u32 -> nat)

  const ADDRESSING := Addressing(
    (pc: u32) => IsRom(pc),
    (pc: u32) => IsRam(pc),
    (pc: u32, mode) => Align(pc, mode),
    (pc: u32, mode) => KeyOf(pc, mode),
    (key: u32) => Slot(key))

  /** What the cache needs of its view of addresses. */
  ghost predicate Sound(a: Addressing) {
    && (forall key :: a.slotOf(key) < HASH_SIZE)
    && (forall pc, mode :: a.keyOf(a.align(pc, mode), mode) == a.keyOf(pc, mode))
    && (forall pc, mode :: a.align(a.align(pc, mode), mode) == a.align(pc, mode))
    && (forall pc1, mode1, pc2, mode2 :: a.keyOf(pc1, mode1) == a.keyOf(pc2, mode2) ==>
          mode1 == mode2 && a.align(pc1, mode1) == a.align(pc2, mode2))
    && (forall pc, mode :: AlignsTo(a.align(pc, mode), pc, mode))
    && (forall pc, mode :: a.isRom(pc) ==> a.isRom(a.align(pc, mode)))
    && (forall pc: u32 :: a.isRom(pc) <==> pc < 0x1000000 || 0x8000000 <= pc < 0xE000000)
    && (forall pc: u32 :: a.isRam(pc) <==> 0x2000000 <= pc < 0x4000000)
  }

  lemma SlotSound(a: Addressing, key: u32)
    requires Sound(a)
    ensures a.slotOf(key) < HASH_SIZE
  {
  }

  /** No direct exit of a block translated from ROM leads into RAM, which has a cache of its own. */
  ghost predicate StaysOutOfRam(g: Guest, a: Addressing) {
    forall mode: Mode, start: u32, i: nat :: i < MAX_BLOCK_SIZE && a.isRom(start) ==> !LeadsToRam(g, a, mode, start, i)
  }

  ghost predicate LeadsToRam(g: Guest, a: Addressing, mode: Mode, start: u32, i: nat) {
    ExitOf(g, mode, start, i).Some? && a.isRam(ExitOf(g, mode, start, i).value)
  }

  /** The address of an ARM branch in the BIOS region that reaches beyond it, as far as RAM. */
  predicate ReachesRam(op: u32, pc: u32) {
    ArmBranch(op) && pc + 8 + ArmOffset(op) >= 0x2000000
  }

  /** Among all direct exits of code that lies in a ROM block, only an ARM branch from the BIOS region over
      nearly its full distance leads into RAM: cartridge code never does, and Thumb code never does. */
  lemma OnlyFarBranchesLeadToRam(mode: Mode, op: u32, last: u32, pc: u32)
    requires pc < 0x1001000 || 0x8000000 <= pc < 0xE001000
    requires DirectExit(mode, op, last, pc).Some?
    ensures IsRam(DirectExit(mode, op, last, pc).value) <==> mode.Arm? && pc < 0x1001000 && ReachesRam(op, pc)
  {
    var t := DirectExit(mode, op, last, pc).value;
    if mode.Arm? {
      var offset := ArmOffset(op);
      assert -0x2000000 <= offset <= 0x1FFFFFC;
      if ArmBranch(op) {
        FarTarget(pc, 8 + offset);
      }
    } else if ThumbBranch(op) {
      ThumbDistance(op, last % 0x10000, Plus(pc, 2));
    }
  }

  /** A Thumb branch goes less than 8 MiB away. */
  lemma ThumbDistance(op: Interp.Opcode, last: Interp.Opcode, next: u32)
    requires ThumbBranch(op) && ThumbTarget(op, last, next).Some?
    requires next < 0x1001002 || 0x8000000 <= next < 0xE001002
    ensures !IsRam(ThumbTarget(op, last, next).value)
  {
    var distance := if op < 0xE000 then 2 + Interp.ShortOffset(op)
                    else if op < 0xF800 then 2 + 2 * Interp.LongOffset(op)
                    else Interp.LongOffset(last) * 0x1000 + (op % 0x800) * 2;
    assert -0x800000 <= distance <= 0x800000;
    FarTarget(next, distance);
  }

  lemma FarTarget(pc: u32, distance: int)
    requires pc < 0x1001002 || 0x8000000 <= pc < 0xE001002
    requires -0x2000000 <= distance <= 0x2000004
    ensures IsRam(Wrap(pc + distance)) <==> pc < 0x1001002 && pc + distance >= 0x2000000
  {
    var t := pc + distance;
    assert Wrap(t) == if t < 0 then t + WORD else t;
  }

  lemma LeadsToRamIff(g: Guest, mode: Mode, start: u32, i: nat)
    requires g.decoder == DECODER && IsRom(start) && i < MAX_BLOCK_SIZE
    ensures LeadsToRam(g, ADDRESSING, mode, start, i) <==>
            mode.Arm? && Region(start) == 0 && BiosReachesRam(g, start, i)
  {
    hide DirectExit, ArmBranch, ArmOffset, DECODER;
    var pc := PcAt(mode, start, i);
    var op, last := OpcodeAt(g, mode, pc), LastOpcode(g, mode, start, i);
    StaysInItsRegion(mode, start, i);
    ExitIsDirect(g, mode, start, i);
    if DirectExit(mode, op, last, pc).Some? {
      OnlyFarBranchesLeadToRam(mode, op, last, pc);
    } else if mode.Arm? && ArmBranch(op) {
      ArmBranchExits(op, last, pc);
    }
  }

  lemma StaysInItsRegion(mode: Mode, start: u32, i: nat)
    requires IsRom(start) && i < MAX_BLOCK_SIZE
    ensures var pc := PcAt(mode, start, i);
            if Region(start) == 0 then pc < 0x1001000 else 0x8000000 <= pc < 0xE001000
  {
    PcAtRises(mode, start, i);
  }

  predicate BiosReachesRam(g: Guest, start: u32, i: nat) {
    ReachesRam(OpcodeAt(g, Arm, PcAt(Arm, start, i)), PcAt(Arm, start, i))
  }

  /** The guest's ROM code keeps out of RAM exactly when no ARM branch of the BIOS region reaches that far;
      nothing is asked of the cartridge. */
  lemma OnlyTheBiosMatters(g: Guest)
    requires g.decoder == DECODER
    ensures StaysOutOfRam(g, ADDRESSING) <==>
            forall start: u32, i: nat | i < MAX_BLOCK_SIZE && Region(start) == 0 :: !BiosReachesRam(g, start, i)
  {
    hide LeadsToRam, BiosReachesRam;
    if StaysOutOfRam(g, ADDRESSING) {
      forall start: u32, i: nat | i < MAX_BLOCK_SIZE && Region(start) == 0
        ensures !BiosReachesRam(g, start, i)
      {
        LeadsToRamIff(g, Arm, start, i);
        assert ADDRESSING.isRom(start) && !LeadsToRam(g, ADDRESSING, Arm, start, i);
      }
    }
    if forall start: u32, i: nat | i < MAX_BLOCK_SIZE && Region(start) == 0 :: !BiosReachesRam(g, start, i) {
      forall mode: Mode, start: u32, i: nat | i < MAX_BLOCK_SIZE && ADDRESSING.isRom(start)
        ensures !LeadsToRam(g, ADDRESSING, mode, start, i)
      {
        LeadsToRamIff(g, mode, start, i);
      }
    }
  }

  /** Rounding down within a region stays in it. */
  lemma SameRegion(x: u32, y: u32, q: int, width: int)
    requires width == 2 || width == 4
    requires x == width * q && x <= y < x + width
    ensures Region(x) == Region(y)
  {
    var r := y / 0x1000000;
    assert 0x1000000 * r <= y < 0x1000000 * r + 0x1000000;
    if width == 4 {
      assert 4 * q >= 4 * (0x400000 * r);
    } else {
      assert 2 * q >= 2 * (0x800000 * r);
    }
  }

  lemma AlignArm(pc: u32)
    ensures Align(Align(pc, Arm), Arm) == Align(pc, Arm) && Region(Align(pc, Arm)) == Region(pc)
  {
    hide Region;
    assert Align(pc, Arm) == 4 * (pc / 4);
    SameRegion(4 * (pc / 4), pc, pc / 4, 4);
  }

  lemma AlignThumb(pc: u32)
    ensures Align(Align(pc, Thumb), Thumb) == Align(pc, Thumb) && Region(Align(pc, Thumb)) == Region(pc)
  {
    hide Region;
    assert Align(pc, Thumb) == 2 * (pc / 2);
    SameRegion(2 * (pc / 2), pc, pc / 2, 2);
  }

  lemma AlignKeepsKey(pc: u32, mode: Mode)
    ensures Align(Align(pc, mode), mode) == Align(pc, mode)
    ensures Region(Align(pc, mode)) == Region(pc)
  {
    AlignArm(pc);
    AlignThumb(pc);
  }

  /** The emulator's view of addresses is sound. */
  lemma AddressingIsSound()
    ensures Sound(ADDRESSING)
  {
    forall pc: u32, mode
      ensures KeyOf(Align(pc, mode), mode) == KeyOf(pc, mode) && Align(Align(pc, mode), mode) == Align(pc, mode)
      ensures (IsRom(pc) ==> IsRom(Align(pc, mode))) && AlignsTo(Align(pc, mode), pc, mode)
    {
      AlignDownAligns(pc, mode);
      AlignKeepsKey(pc, mode);
      KeysTellBlocksApart(Align(pc, mode), mode, pc, mode);
    }
    forall pc1: u32, mode1, pc2: u32, mode2 | KeyOf(pc1, mode1) == KeyOf(pc2, mode2)
      ensures mode1 == mode2 && Align(pc1, mode1) == Align(pc2, mode2)
    {
      KeysTellBlocksApart(pc1, mode1, pc2, mode2);
    }
    forall pc: u32
      ensures IsRom(pc) <==> pc < 0x1000000 || 0x8000000 <= pc < 0xE000000
      ensures IsRam(pc) <==> 0x2000000 <= pc < 0x4000000
    {
      Regions(pc);
    }
  }

  /** Keys tell blocks apart: the same key means the same instruction set and the same aligned
      address. */
  lemma KeysTellBlocksApart(pc1: u32, mode1: Mode, pc2: u32, mode2: Mode)
    ensures KeyOf(pc1, mode1) == KeyOf(pc2, mode2) <==>
            mode1 == mode2 && Align(pc1, mode1) == Align(pc2, mode2)
  {
  }

  // ----------------------------------------------------------------------------------------------
  // Chains
  // ----------------------------------------------------------------------------------------------

  /** `chain` lists, in increasing order, the offsets met when following headers from `head`. */
  ghost predicate IsChain(chain: seq<nat>, head: nat, headers: map<nat, Header>) {
    && head == (if chain == [] then 0 else chain[0])
    && (forall j | 0 <= j < |chain| :: 0 < chain[j] && chain[j] in headers)
    && (forall j {:trigger headers[chain[j]]} | 0 <= j < |chain| ::
          if j + 1 < |chain| then chain[j] < headers[chain[j]].nextEntry == chain[j + 1]
          else headers[chain[j]].nextEntry == 0)
  }

  /** Following a chain, offsets only go up: it cannot loop. */
  lemma {:induction false} ChainGoesUp(chain: seq<nat>, head: nat, headers: map<nat, Header>, j: nat, k: nat)
    requires IsChain(chain, head, headers) && j < k < |chain|
    ensures chain[j] < chain[k]
    decreases k - j
  {
    assert chain[j] < headers[chain[j]].nextEntry == chain[j + 1];
    if j + 1 < k {
      ChainGoesUp(chain, head, headers, j + 1, k);
    }
  }

  /** The finite map the index stands for: keys to the offsets of their blocks, with its inverse. */
  ghost predicate IsIndex(index: map<u32, nat>, owner: map<nat, u32>) {
    && (forall k | k in index :: index[k] in owner && owner[index[k]] == k)
    && (forall o | o in owner :: owner[o] in index && index[owner[o]] == o)
  }

  /** Every chain is well formed from the head in its slot. */
  ghost predicate ChainsFormed(chains: seq<seq<nat>>, heads: seq<nat>, headers: map<nat, Header>) {
    && |chains| == |heads| == HASH_SIZE
    && forall s | 0 <= s < HASH_SIZE :: IsChain(chains[s], heads[s], headers)
  }

  /** The chains hold exactly the published blocks, each in the slot of its key; `place` is the
      position of a block in its chain. */
  ghost predicate ChainsHold(chains: seq<seq<nat>>, owner: map<nat, u32>, place: map<nat, nat>,
                             slotOf: u32 -> nat)
  {
    && |chains| == HASH_SIZE
    && (forall s, j | 0 <= s < HASH_SIZE && 0 <= j < |chains[s]| ::
          chains[s][j] in owner && slotOf(owner[chains[s][j]]) == s)
    && (forall o {:trigger o in place} | o in owner ::
          && o in place && slotOf(owner[o]) < HASH_SIZE
          && place[o] < |chains[slotOf(owner[o])]| && chains[slotOf(owner[o])][place[o]] == o)
  }

  ghost predicate KeysStored(headers: map<nat, Header>, owner: map<nat, u32>) {
    forall o | o in owner :: o in headers && headers[o].pcValue == owner[o]
  }

  // ----------------------------------------------------------------------------------------------
  // Blocks
  // ----------------------------------------------------------------------------------------------

  /** What does not change while blocks are translated: the view of addresses, the distance from a
      header to the code behind it, the BIOS entry, and the guest's code. */
  datatype View = View(a: Addressing, bodyOffset: nat, bios: Target, guest: Guest)

  /** Where a correctly patched exit of block `b` leads. */
  ghost predicate LinkGood(b: Block, e: Exit, index: map<u32, nat>, v: View) {
    if StaysInside(b, e) then exists i: nat :: LandsOn(b, e, i)
    else if e.branch.target == SWI_VECTOR then e.link == v.bios
    else if v.a.isRom(e.branch.target) then
      var key := v.a.keyOf(e.branch.target, b.mode);
      key in index && e.link == At(index[key] + v.bodyOffset)
    else e.link == Unmapped
  }

  /** The block translates the guest code at its address, and every direct exit of that code is patched to
      the block's own code, a published block, the BIOS entry or the all-ones address. */
  ghost predicate Complete(b: Block, index: map<u32, nat>, v: View) {
    IsTranslation(b, v.guest) && forall i | 0 <= i < |b.exits| :: LinkGood(b, b.exits[i], index, v)
  }

  // ----------------------------------------------------------------------------------------------
  // Whole-cache predicates, over values
  // ----------------------------------------------------------------------------------------------

  /** Every published block, except those in `except`, has its code in place: behind its header, below
      the bump pointer, and disjoint from every other published block. */
  ghost predicate BlocksPlaced(owner: map<nat, u32>, code: map<nat, Block>, ptr: nat, v: View,
                               except: set<nat>)
  {
    && (forall o | o in owner && o !in except ::
          && o in code
          && code[o].entry == o + v.bodyOffset
          && v.a.keyOf(code[o].pc, code[o].mode) == owner[o]
          && v.a.align(code[o].pc, code[o].mode) == code[o].pc
          && ExitsInside(code[o])
          && code[o].end <= ptr)
    && (forall o, p | o in owner && p in owner && o !in except && o < p :: code[o].end <= p)
  }

  lemma EntryOf(key: u32, index: map<u32, nat>, owner: map<nat, u32>, code: map<nat, Block>, ptr: nat, v: View)
    requires IsIndex(index, owner) && key in index && BlocksPlaced(owner, code, ptr, v, {})
    ensures index[key] in code
    ensures var b := code[index[key]];
            b.entry == index[key] + v.bodyOffset && v.a.keyOf(b.pc, b.mode) == key && v.a.align(b.pc, b.mode) == b.pc
  {
  }

  lemma KeyTells(a: Addressing, pc: u32, mode: Mode, pc': u32, mode': Mode)
    requires Sound(a) && a.keyOf(pc, mode) == a.keyOf(pc', mode')
    ensures mode == mode' && a.align(pc, mode) == a.align(pc', mode')
  {
  }

  /** The published blocks that are not complete are all on the call stack. */
  ghost predicate ClosedExcept(owner: map<nat, u32>, code: map<nat, Block>, index: map<u32, nat>,
                               v: View, stack: set<nat>)
  {
    forall o | o in owner && o !in stack :: o in code && Complete(code[o], index, v)
  }

  lemma AllComplete(owner: map<nat, u32>, code: map<nat, Block>, index: map<u32, nat>, v: View)
    requires IsIndex(index, owner) && ClosedExcept(owner, code, index, v, {})
    ensures forall k | k in index :: index[k] in code && Complete(code[index[k]], index, v)
  {
    hide Complete;
  }

  /** Published blocks stay published, under the same key, with the same code. */
  ghost predicate Extends(index: map<u32, nat>, owner: map<nat, u32>, code: map<nat, Block>,
                          index': map<u32, nat>, owner': map<nat, u32>, code': map<nat, Block>,
                          except: set<nat>)
  {
    && (forall k | k in index :: k in index' && index'[k] == index[k])
    && (forall o | o in owner :: o in owner' && owner'[o] == owner[o])
    && (forall o | o in owner && o !in except && o in code :: o in code' && code'[o] == code[o])
  }

  /** Entering a block and then working on it extends what was there before. */
  lemma ExtendsNew(index: map<u32, nat>, owner: map<nat, u32>, code: map<nat, Block>, key: u32, self: nat,
                   index': map<u32, nat>, owner': map<nat, u32>, code': map<nat, Block>)
    requires key !in index && self !in owner
    requires Extends(index[key := self], owner[self := key], code, index', owner', code', {self})
    ensures Extends(index, owner, code, index', owner', code', {})
    ensures key in index' && index'[key] == self
  {
    forall k | k in index
      ensures k in index' && index'[k] == index[k]
    {
      assert k in index[key := self];
    }
    assert key in index[key := self];
  }

  lemma AlignSound(a: Addressing, pc: u32, mode: Mode)
    requires Sound(a) && a.isRom(pc)
    ensures a.isRom(a.align(pc, mode)) && a.keyOf(a.align(pc, mode), mode) == a.keyOf(pc, mode)
    ensures a.align(a.align(pc, mode), mode) == a.align(pc, mode)
  {
  }

  lemma OffTheStack(stack: set<nat>, self: nat)
    requires self !in stack
    ensures stack + {self} - {self} == stack
  {
  }

  lemma ExtendsSelf(index: map<u32, nat>, owner: map<nat, u32>, code: map<nat, Block>)
    ensures forall except: set<nat> :: Extends(index, owner, code, index, owner, code, except)
  {
  }

  lemma ExtendsAt(index: map<u32, nat>, owner: map<nat, u32>, code: map<nat, Block>,
                  index': map<u32, nat>, owner': map<nat, u32>, code': map<nat, Block>, except: set<nat>, o: nat)
    requires Extends(index, owner, code, index', owner', code', except)
    requires o in owner && o in code && o !in except
    ensures o in owner' && o in code' && code'[o] == code[o]
  {
  }

  /** So does putting its code in place first, */
  lemma ExtendsPlaced(index: map<u32, nat>, owner: map<nat, u32>, code: map<nat, Block>, self: nat, b: Block,
                      index': map<u32, nat>, owner': map<nat, u32>, code': map<nat, Block>)
    requires Extends(index, owner, code[self := b], index', owner', code', {self})
    ensures Extends(index, owner, code, index', owner', code', {self})
  {
    forall o | o in owner && o !in {self} && o in code
      ensures o in code' && code'[o] == code[o]
    {
      assert o in code[self := b];
    }
  }

  /** or patching it afterwards. */
  lemma ExtendsPatched(index: map<u32, nat>, owner: map<nat, u32>, code: map<nat, Block>, self: nat, b: Block,
                       index': map<u32, nat>, owner': map<nat, u32>, code': map<nat, Block>)
    requires Extends(index, owner, code, index', owner', code', {})
    ensures Extends(index, owner, code, index', owner', code'[self := b], {self})
  {
  }

  lemma LinkStaysGood(b: Block, b': Block, e: Exit, index: map<u32, nat>, index': map<u32, nat>,
                      v: View)
    requires LinkGood(b, e, index, v)
    requires SameCode(b, b')
    requires forall k | k in index :: k in index' && index'[k] == index[k]
    ensures LinkGood(b', e, index', v)
  {
    CodeHasPlan(b, b');
    StillLands(b, b', e);
  }

  lemma ClosedStays(owner: map<nat, u32>, code: map<nat, Block>, index: map<u32, nat>, index': map<u32, nat>,
                    v: View, stack: set<nat>)
    requires ClosedExcept(owner, code, index, v, stack)
    requires forall k | k in index :: k in index' && index'[k] == index[k]
    ensures ClosedExcept(owner, code, index', v, stack)
  {
    forall o | o in owner && o !in stack
      ensures o in code && Complete(code[o], index', v)
    {
      forall i | 0 <= i < |code[o].exits|
        ensures LinkGood(code[o], code[o].exits[i], index', v)
      {
        LinkStaysGood(code[o], code[o], code[o].exits[i], index, index', v);
      }
    }
  }

  lemma IndexGrows(index: map<u32, nat>, owner: map<nat, u32>, key: u32, self: nat)
    requires IsIndex(index, owner) && key !in index && self !in owner
    ensures IsIndex(index[key := self], owner[self := key])
  {
  }

  lemma ChainAppends(chain: seq<nat>, head: nat, headers: map<nat, Header>, self: nat, key: u32)
    requires IsChain(chain, head, headers) && 0 < self
    requires forall j | 0 <= j < |chain| :: chain[j] < self
    ensures var last := if chain == [] then 0 else chain[|chain| - 1];
            var added := headers[self := Header(key, 0)];
            if chain == [] then IsChain([self], self, added)
            else IsChain(chain + [self], head, added[last := added[last].(nextEntry := self)])
  {
  }

  lemma ChainUnaffected(chain: seq<nat>, head: nat, headers: map<nat, Header>, headers': map<nat, Header>)
    requires IsChain(chain, head, headers)
    requires forall j | 0 <= j < |chain| :: chain[j] in headers' && headers'[chain[j]] == headers[chain[j]]
    ensures IsChain(chain, head, headers')
  {
  }

  /** The headers and chain heads after linking a new block at offset `self`. */
  function LinkedHeaders(headers: map<nat, Header>, self: nat, key: u32, lastOffset: nat): map<nat, Header>
    requires lastOffset == 0 || lastOffset in headers
  {
    var added := headers[self := Header(key, 0)];
    if lastOffset == 0 then added else added[lastOffset := added[lastOffset].(nextEntry := self)]
  }

  function LinkedHeads(heads: seq<nat>, slot: nat, self: nat, lastOffset: nat): seq<nat>
    requires slot < |heads|
  {
    if lastOffset == 0 then heads[slot := self] else heads
  }

  function LastOf(chain: seq<nat>): nat {
    if chain == [] then 0 else chain[|chain| - 1]
  }

  lemma ChainsStayFormed(chains: seq<seq<nat>>, heads: seq<nat>, headers: map<nat, Header>,
                         slot: nat, self: nat, key: u32)
    requires ChainsFormed(chains, heads, headers)
    requires slot < HASH_SIZE && 0 < self
    requires forall s, j | 0 <= s < HASH_SIZE && 0 <= j < |chains[s]| :: chains[s][j] < self
    requires forall s, j | 0 <= s < HASH_SIZE && s != slot && 0 <= j < |chains[s]| ::
               chains[s][j] != LastOf(chains[slot])
    ensures LastOf(chains[slot]) == 0 || LastOf(chains[slot]) in headers
    ensures ChainsFormed(chains[slot := chains[slot] + [self]],
                         LinkedHeads(heads, slot, self, LastOf(chains[slot])),
                         LinkedHeaders(headers, self, key, LastOf(chains[slot])))
  {
    var chain := chains[slot];
    assert IsChain(chain, heads[slot], headers);
    ChainAppends(chain, heads[slot], headers, self, key);
    var headers' := LinkedHeaders(headers, self, key, LastOf(chain));
    forall s | 0 <= s < HASH_SIZE && s != slot
      ensures IsChain(chains[s], heads[s], headers')
    {
      assert IsChain(chains[s], heads[s], headers);
      ChainUnaffected(chains[s], heads[s], headers, headers');
    }
  }

  lemma LastIsElsewhere(chains: seq<seq<nat>>, owner: map<nat, u32>, place: map<nat, nat>,
                        slotOf: u32 -> nat, slot: nat)
    requires ChainsHold(chains, owner, place, slotOf) && slot < HASH_SIZE
    requires 0 !in owner
    ensures forall s, j | 0 <= s < HASH_SIZE && s != slot && 0 <= j < |chains[s]| ::
              chains[s][j] != LastOf(chains[slot])
  {
  }

  lemma ChainsStillHold(chains: seq<seq<nat>>, owner: map<nat, u32>, place: map<nat, nat>,
                        slotOf: u32 -> nat, slot: nat, self: nat, key: u32)
    requires ChainsHold(chains, owner, place, slotOf)
    requires slot == slotOf(key) < HASH_SIZE && self !in owner
    ensures ChainsHold(chains[slot := chains[slot] + [self]], owner[self := key],
                       place[self := |chains[slot]|], slotOf)
  {
  }

  /** Linking a new key at the end of its chain keeps the index and its map in agreement. */
  lemma LinkKeepsIndex(index: map<u32, nat>, owner: map<nat, u32>, place: map<nat, nat>,
                       chains: seq<seq<nat>>, heads: seq<nat>, headers: map<nat, Header>,
                       slotOf: u32 -> nat, key: u32, self: nat)
    requires IsIndex(index, owner) && ChainsFormed(chains, heads, headers)
    requires ChainsHold(chains, owner, place, slotOf) && KeysStored(headers, owner)
    requires key !in index && slotOf(key) < HASH_SIZE && 0 < self
    requires forall o | o in owner :: 0 < o < self
    ensures LastOf(chains[slotOf(key)]) == 0 || LastOf(chains[slotOf(key)]) in headers
    ensures var slot, last := slotOf(key), LastOf(chains[slotOf(key)]);
            && IsIndex(index[key := self], owner[self := key])
            && ChainsFormed(chains[slot := chains[slot] + [self]], LinkedHeads(heads, slot, self, last),
                            LinkedHeaders(headers, self, key, last))
            && ChainsHold(chains[slot := chains[slot] + [self]], owner[self := key],
                          place[self := |chains[slot]|], slotOf)
            && KeysStored(LinkedHeaders(headers, self, key, last), owner[self := key])
  {
    var slot := slotOf(key);
    IndexGrows(index, owner, key, self);
    ChainsStillHold(chains, owner, place, slotOf, slot, self, key);
    LastIsElsewhere(chains, owner, place, slotOf, slot);
    ChainsStayFormed(chains, heads, headers, slot, self, key);
  }

  // ----------------------------------------------------------------------------------------------
  // Exits of a block under translation
  // ----------------------------------------------------------------------------------------------

  /** A direct exit of a ROM block never leads to RAM. */
  lemma ExitOutOfRam(g: Guest, a: Addressing, mode: Mode, pc: u32, s: Scanned, t: u32)
    requires StaysOutOfRam(g, a) && a.isRom(pc) && IsScanOf(s, g, mode, pc) && t in s.targets
    ensures !a.isRam(t)
  {
    var i := TargetIsExit(s, g, mode, pc, t);
    assert !LeadsToRam(g, a, mode, pc, i);
  }

  /** Patching exits of a block on the stack disturbs nothing else. */
  lemma PatchKeeps(owner: map<nat, u32>, code: map<nat, Block>, index: map<u32, nat>, ptr: nat,
                   v: View, stack: set<nat>, self: nat, b: Block)
    requires BlocksPlaced(owner, code, ptr, v, {})
    requires ClosedExcept(owner, code, index, v, stack)
    requires self in owner && self in stack && SameCode(code[self], b)
    ensures BlocksPlaced(owner, code[self := b], ptr, v, {})
    ensures ClosedExcept(owner, code[self := b], index, v, stack)
  {
    forall i | 0 <= i < |b.exits|
      ensures b.entry <= b.exits[i].branch.lo < b.exits[i].branch.hi <= b.end
    {
      assert b.exits[i].branch == code[self].exits[i].branch;
    }
  }

  /** Publishing a header at the bump pointer leaves every other block in place, and complete. */
  lemma EnterKeeps(owner: map<nat, u32>, code: map<nat, Block>, index: map<u32, nat>, v: View,
                   stack: set<nat>, self: nat, key: u32)
    requires BlocksPlaced(owner, code, self, v, {}) && ClosedExcept(owner, code, index, v, stack)
    requires key !in index && self !in owner && forall o | o in owner :: o < self
    ensures BlocksPlaced(owner[self := key], code, self, v, {self})
    ensures ClosedExcept(owner[self := key], code, index[key := self], v, stack + {self})
  {
    ClosedStays(owner, code, index, index[key := self], v, stack);
  }

  /** Putting the code of the newest block in place. */
  lemma PlaceNewest(owner: map<nat, u32>, code: map<nat, Block>, index: map<u32, nat>, ptr: nat, ptr': nat,
                    v: View, stack: set<nat>, self: nat, b: Block)
    requires BlocksPlaced(owner, code, ptr, v, {self})
    requires ClosedExcept(owner, code, index, v, stack)
    requires self in owner && self in stack && forall o | o in owner :: o <= self
    requires b.entry == self + v.bodyOffset && v.a.keyOf(b.pc, b.mode) == owner[self] && ExitsInside(b)
    requires v.a.align(b.pc, b.mode) == b.pc
    requires b.end == ptr' >= ptr
    ensures BlocksPlaced(owner, code[self := b], ptr', v, {})
    ensures ClosedExcept(owner, code[self := b], index, v, stack)
  {
  }

  // ----------------------------------------------------------------------------------------------
  // What a block leads to
  // ----------------------------------------------------------------------------------------------

  /** A branch out of the block [start, endPc) leads to a block of one of these keys, if to any in ROM. */
  predicate LeadsInto(keys: set<u32>, v: View, start: u32, endPc: u32, mode: Mode, t: u32) {
    start <= t < endPc || t == SWI_VECTOR || !v.a.isRom(t) || v.a.keyOf(t, mode) in keys
  }

  ghost predicate ExitsInto(keys: set<u32>, v: View, start: u32, mode: Mode, s: Scanned) {
    forall j | 0 <= j < |s.targets| && j < Count(Emitting(v.guest, mode, start, s)) ::
      LeadsInto(keys, v, start, s.endPc, mode, s.targets[j])
  }

  ghost predicate ClosedAt(keys: set<u32>, v: View, start: u32, mode: Mode) {
    forall s: Scanned | IsScanOf(s, v.guest, mode, start) :: ExitsInto(keys, v, start, mode, s)
  }

  /** The blocks of these keys branch only among themselves, as far as they stay in ROM. */
  ghost predicate ClosedKeys(keys: set<u32>, v: View) {
    forall pc: u32, mode: Mode | v.a.isRom(pc) && v.a.keyOf(pc, mode) in keys ::
      ClosedAt(keys, v, v.a.align(pc, mode), mode)
  }

  /** These keys have the block for `pc`, if it is in ROM, and all that it leads to. */
  ghost predicate ClosesOver(keys: set<u32>, v: View, pc: u32, mode: Mode) {
    ClosedKeys(keys, v) && (v.a.isRom(pc) ==> v.a.keyOf(pc, mode) in keys)
  }

  /** These keys have all that the block at `start` leads to. */
  ghost predicate ClosesAround(keys: set<u32>, v: View, start: u32, mode: Mode) {
    ClosedKeys(keys, v) && ClosedAt(keys, v, start, mode)
  }

  lemma ClosedHere(keys: set<u32>, v: View, pc: u32, mode: Mode)
    requires ClosesOver(keys, v, pc, mode) && v.a.isRom(pc)
    ensures v.a.keyOf(pc, mode) in keys && ClosesAround(keys, v, v.a.align(pc, mode), mode)
  {
  }

  lemma BranchLeadsInto(keys: set<u32>, v: View, b: Block, s: Scanned, j: nat)
    requires Translates(b, s, v.guest) && j < |b.exits| && ClosedAt(keys, v, b.pc, b.mode)
    ensures LeadsInto(keys, v, b.pc, b.endPc, b.mode, b.exits[j].branch.target)
  {
    hide IsScanOf, OffsetsRise, InOwnCode, Emitting, Count, LeadsInto;
    assert BranchesOf(b.exits)[j] == b.exits[j].branch;
    assert ExitsInto(keys, v, b.pc, b.mode, s);
  }

  lemma OneFewer(keys: set<u32>, index: map<u32, nat>, key: u32, self: nat)
    requires key in keys && key !in index
    ensures |keys - index.Keys| == |keys - index[key := self].Keys| + 1
  {
    assert keys - index.Keys == (keys - index[key := self].Keys) + {key};
  }

  // ----------------------------------------------------------------------------------------------
  // The cache
  // ----------------------------------------------------------------------------------------------

  class RomCache {
    const view: View
    const cacheSize: nat
    const watermark: nat

    const emit: Bounds

    const hash: array<nat>
    var headers: map<nat, Header>
    var code: map<nat, Block>
    var ptr: nat
    var lastPtr: nat

    // The map that the index stands for, and how its chains run.
    ghost var index: map<u32, nat>
    ghost var owner: map<nat, u32>
    ghost var chains: seq<seq<nat>>
    ghost var place: map<nat, nat>

    // Byte ranges emitted or patched since the instruction cache was last synchronised.
    ghost var dirty: set<(nat, nat)>

    /** The highest the bump pointer can be between blocks. */
    function Roof(): int { cacheSize - LIMIT_THRESHOLD + emit.gateMax }

    /** The emitter's bounds fit the slack that is kept at the end of the cache. */
    ghost predicate Sizes() {
      && HEADER_SIZE + emit.gateMax + emit.headMax + emit.insnMax <= LIMIT_THRESHOLD
      && emit.updateMax + emit.insnMax <= LIMIT_THRESHOLD <= cacheSize
      && emit.Consistent()
      && INITIAL_WATERMARK <= watermark <= Roof()
      && view.bodyOffset == HEADER_SIZE + emit.prologue
      && view.bios.At?
      && hash.Length == HASH_SIZE
    }

    /** The hash table, the chains through the headers and the map they stand for agree. */
    ghost predicate IndexHolds()
      reads `headers, `chains, `index, `owner, `place, hash
    {
      && hash.Length == HASH_SIZE
      && IsIndex(index, owner)
      && ChainsFormed(chains, hash[..], headers)
      && ChainsHold(chains, owner, place, view.a.slotOf)
      && KeysStored(headers, owner)
    }

    /** The bump pointer stays in the cache, blocks start above the reserved bytes, and everything
        written since the last synchronisation lies in the range the next one will cover. */
    ghost predicate SpaceHolds()
      reads `ptr, `lastPtr, `owner, `dirty
    {
      && watermark <= ptr <= Roof() + HEADER_SIZE
      && lastPtr <= ptr
      && (forall o | o in owner :: INITIAL_WATERMARK <= o && o + HEADER_SIZE <= ptr)
      && (forall range | range in dirty :: lastPtr <= range.0 < range.1 <= ptr)
    }

    /** All published code is in place, and only the blocks on the stack may be incomplete. */
    ghost predicate CodeHolds(stack: set<nat>)
      reads `ptr, `owner, `index, `code
    {
      && ptr <= Roof()
      && BlocksPlaced(owner, code, ptr, view, {})
      && ClosedExcept(owner, code, index, view, stack)
    }

    ghost predicate StackHolds(stack: set<nat>)
      reads `owner, `lastPtr
    {
      forall o | o in stack :: o in owner && lastPtr <= o
    }

    /** Between blocks, with the blocks in `stack` still being translated further up. */
    ghost predicate Ready(stack: set<nat>)
      reads this, hash
    {
      Sizes() && IndexHolds() && SpaceHolds() && CodeHolds(stack) && StackHolds(stack)
    }

    /** What a flush leaves: nothing is published and nothing waits for synchronisation. */
    ghost predicate Flushed()
      reads `ptr, `lastPtr, `index, `owner, `dirty
    {
      index == map[] && owner == map[] && dirty == {} && ptr == lastPtr == watermark
    }

    /** A cache right after start-up: nothing published above the reserved and BIOS code. */
    constructor (guest: Guest, cacheSize: nat, emit: Bounds, watermark: nat, biosEntry: nat)
      requires HEADER_SIZE + emit.gateMax + emit.headMax + emit.insnMax <= LIMIT_THRESHOLD
      requires emit.updateMax + emit.insnMax <= LIMIT_THRESHOLD <= cacheSize
      requires emit.Consistent()
      requires INITIAL_WATERMARK <= watermark <= cacheSize - LIMIT_THRESHOLD + emit.gateMax
      ensures Ready({}) && Flushed() && Sound(view.a) && view.guest == guest && view.a == ADDRESSING && fresh(hash)
      ensures this.cacheSize == cacheSize && this.emit == emit && this.watermark == watermark
    {
      this.cacheSize, this.watermark, this.emit := cacheSize, watermark, emit;
      view := View(ADDRESSING, HEADER_SIZE + emit.prologue, At(biosEntry), guest);
      hash := new nat[HASH_SIZE](_ => 0);
      headers, code, ptr, lastPtr := map[], map[], watermark, watermark;
      index, owner, place, dirty := map[], map[], map[], {};
      chains := seq(HASH_SIZE, _ => []);
      AddressingIsSound();
    }

    /** Empties the index and drops the code above the watermark. */
    method Flush()
      requires Sizes()
      modifies `ptr, `lastPtr, `chains, `index, `owner, `place, `dirty, hash
      ensures Ready({}) && Flushed()
    {
      lastPtr, ptr := watermark, watermark;
      forall i | 0 <= i < hash.Length {
        hash[i] := 0;
      }
      chains := seq(HASH_SIZE, _ => []);
      index, owner, place, dirty := map[], map[], map[], {};
    }

    /** Stores through the address of the last link of a chain: the hash slot or a header. */
    method StoreLink(slot: nat, lastOffset: nat, self: nat)
      requires slot < hash.Length && (lastOffset == 0 || lastOffset in headers)
      modifies `headers, hash
      ensures hash[..] == LinkedHeads(old(hash[..]), slot, self, lastOffset)
      ensures headers == if lastOffset == 0 then old(headers)
                         else old(headers)[lastOffset := old(headers)[lastOffset].(nextEntry := self)]
    {
      if lastOffset == 0 {
        hash[slot] := self;
      } else {
        headers := headers[lastOffset := headers[lastOffset].(nextEntry := self)];
      }
    }

    /** Writes a header for `key` at offset `self` and links it at the end of its chain. */
    method Link(key: u32, slot: nat, lastOffset: nat, self: nat)
      requires IndexHolds() && slot == view.a.slotOf(key) < HASH_SIZE && key !in index
      requires lastOffset == LastOf(chains[slot])
      requires 0 < self && forall o | o in owner :: 0 < o < self
      modifies `headers, `chains, `index, `owner, `place, hash
      ensures IndexHolds()
      ensures index == old(index)[key := self] && owner == old(owner)[self := key]
    {
      LinkKeepsIndex(index, owner, place, chains, hash[..], headers, view.a.slotOf, key, self);
      headers := headers[self := Header(key, 0)];
      StoreLink(slot, lastOffset, self);
      assert headers == LinkedHeaders(old(headers), self, key, lastOffset);
      index := index[key := self];
      owner := owner[self := key];
      place := place[self := |chains[slot]|];
      chains := chains[slot := chains[slot] + [self]];
    }

    /** Walks the chain of a slot. Finds the block with the given key, or the last block of the chain. */
    method FindInChain(key: u32, slot: nat) returns (offset: nat, lastOffset: nat)
      requires IndexHolds() && slot == view.a.slotOf(key) < HASH_SIZE
      ensures if key in index then offset == index[key] != 0 else offset == 0 && lastOffset == LastOf(chains[slot])
    {
      ghost var chain, j := chains[slot], 0;
      ghost var found := PlaceOf(key, slot);
      hide IndexHolds;
      offset, lastOffset := hash[slot], 0;
      while offset != 0
        invariant 0 <= j <= found <= |chain|
        invariant offset == if j < |chain| then chain[j] else 0
        invariant lastOffset == if j == 0 then 0 else chain[j - 1]
        decreases |chain| - j
      {
        HeaderAt(slot, j, key);
        if headers[offset].pcValue == key {
          return;
        }
        lastOffset := offset;
        offset := headers[offset].nextEntry;
        j := j + 1;
      }
    }

    /** Where in its chain the block with this key is; the end of the chain if there is none. */
    lemma PlaceOf(key: u32, slot: nat) returns (found: nat)
      requires IndexHolds() && slot == view.a.slotOf(key) < HASH_SIZE
      ensures var chain := chains[slot]; hash[slot] == if chain == [] then 0 else chain[0]
      ensures if key in index then found < |chains[slot]| && chains[slot][found] == index[key] != 0
              else found == |chains[slot]|
    {
      assert IsChain(chains[slot], hash[slot], headers);
      found := |chains[slot]|;
      if key in index {
        assert index[key] in owner && index[key] in place;
        found := place[index[key]];
        assert chains[slot][found] == index[key];
      }
    }

    /** What the header of block `j` of a chain says. */
    lemma HeaderAt(slot: nat, j: nat, key: u32)
      requires IndexHolds() && slot < HASH_SIZE && j < |chains[slot]|
      ensures var chain := chains[slot];
              && chain[j] != 0 && chain[j] in headers
              && headers[chain[j]].nextEntry == (if j + 1 < |chain| then chain[j + 1] else 0)
              && (headers[chain[j]].pcValue == key <==> key in index && index[key] == chain[j])
    {
      var o := chains[slot][j];
      assert IsChain(chains[slot], hash[slot], headers);
      assert chains[slot][j] in owner && headers[o].pcValue == owner[o];
    }

    /** The most that a block of `n` instructions takes, apart from its header. */
    function Largest(n: nat): nat { emit.headMax + emit.Most(n) + emit.gateMax }

    /** The most that `n` blocks take, headers included. */
    function Cost(n: nat): nat { n * (HEADER_SIZE + Largest(MAX_BLOCK_SIZE)) }

    lemma CostOne(n: nat)
      ensures Cost(n + 1) == Cost(n) + HEADER_SIZE + Largest(MAX_BLOCK_SIZE)
    {
    }

    /** There is room from `at` on for all blocks of these keys that are not there yet, and for `more` bytes. */
    ghost predicate FitsAt(at: nat, index: map<u32, nat>, keys: set<u32>, more: nat) {
      at + more + Cost(|keys - index.Keys|) + LIMIT_THRESHOLD <= cacheSize
    }

    ghost predicate Fits(keys: set<u32>, more: nat)
      reads `ptr, `index
    {
      FitsAt(ptr, index, keys, more)
    }

    /** There is room for all blocks of these keys in an empty cache. */
    predicate FitsEmpty(keys: set<u32>) {
      watermark + Cost(|keys|) + LIMIT_THRESHOLD <= cacheSize
    }

    lemma EmptyFits(keys: set<u32>)
      requires index == map[] && ptr == watermark
      ensures Fits(keys, 0) <==> FitsEmpty(keys)
    {
      assert keys - index.Keys == keys;
    }

    lemma LargestGrows(n: nat)
      requires n <= MAX_BLOCK_SIZE
      ensures Largest(n) <= Largest(MAX_BLOCK_SIZE)
    {
      emit.MostRises(n, MAX_BLOCK_SIZE);
    }

    /** There is room for the code of `n` instructions. */
    predicate Room(n: nat)
      reads `ptr
    {
      ptr + emit.headMax + emit.Most(n) + LIMIT_THRESHOLD <= cacheSize
    }

    /** Emits a scanned block at the bump pointer, up to and including its gate, unless the code runs
        over the limit on the way, for lack of room. Nothing is written beyond the end of the cache. */
    method EmitBlock(pc: u32, mode: Mode, s: Scanned) returns (overflow: bool, b: Block)
      requires Sizes() && ptr <= Roof() + HEADER_SIZE
      requires IsScanOf(s, view.guest, mode, pc)
      ensures !overflow ==> Fresh(b, pc, mode, s, Emitting(view.guest, mode, pc, s), ptr + emit.prologue)
      ensures !overflow ==> ptr < b.end <= Roof() && b.end <= ptr + Largest(|s.exits|)
      ensures overflow ==> !Room(|s.exits|)
    {
      hide EmittedSoFar, Direct, Bounds.Most, Emitting, Fresh, Recorded;
      emit.MostRises(0, |s.exits|);
      ExitsOfScan(s, view.guest, mode, pc);
      EmittingRecorded(view.guest, mode, pc, s);
      hide IsScanOf;
      var limit := cacheSize - LIMIT_THRESHOLD;
      var emits := Emitting(view.guest, mode, pc, s);
      var offsets: seq<nat>, branches: seq<Branch> := [], [];
      var entry: nat := ptr + emit.prologue;
      var at: nat := EmitHead(emit, ptr, cacheSize);
      ghost var head := at;
      NothingEmitted(emits, s.targets, entry, at);
      var i := 0;
      while i < |s.exits|
        invariant 0 <= i <= |s.exits| && EmittedSoFar(offsets, branches, emits, s.targets, i, entry, at)
        invariant entry <= at <= ptr + emit.headMax + emit.Most(i)
        invariant at <= if i == 0 then ptr + emit.headMax else if i < |s.exits| then limit + emit.updateMax else limit
      {
        emit.MostGrows(i, |s.exits|);
        offsets, branches, at := EmitNext(emit, emits, s.targets, s.exits, i, offsets, branches, entry, at, cacheSize);
        if at > limit {
          b := Block(pc, mode, s.endPc, entry, at, offsets, []);
          return true, b;
        }
        i := i + 1;
        if i < |s.exits| {
          at := EmitGap(emit, emits, s.targets, i, offsets, branches, entry, at, cacheSize);
        }
      }
      overflow := false;
      b := EmitEnd(emit, pc, mode, s, emits, offsets, branches, entry, at, cacheSize);
    }

    /** Where translation of a freshly published block starts: its header is the newest one, right
        below the bump pointer, and its code is not there yet. */
    ghost predicate Entered(self: nat, pc: u32, mode: Mode, stack: set<nat>)
      reads this, hash
    {
      && Sizes() && IndexHolds() && SpaceHolds() && StackHolds(stack)
      && view.a.isRom(pc) && view.a.align(pc, mode) == pc
      && self in stack && self in owner && owner[self] == view.a.keyOf(pc, mode)
      && ptr == self + HEADER_SIZE
      && (forall o | o in owner :: o <= self)
      && BlocksPlaced(owner, code, self, view, {self})
      && ClosedExcept(owner, code, index, view, stack)
    }

    /** Puts a new block's header in the index. */
    method Enter(key: u32, slot: nat, lastOffset: nat, pc: u32, mode: Mode, ghost stack: set<nat>)
      returns (self: nat)
      requires Ready(stack) && slot == view.a.slotOf(key) < HASH_SIZE && key !in index
      requires lastOffset == LastOf(chains[slot])
      requires view.a.isRom(pc) && view.a.keyOf(pc, mode) == key && view.a.align(pc, mode) == pc
      modifies `headers, `ptr, `chains, `index, `owner, `place, hash
      ensures Entered(self, pc, mode, stack + {self})
      ensures self == old(ptr) && self !in old(owner) && self !in stack
      ensures index == old(index)[key := self] && owner == old(owner)[self := key]
    {
      hide IndexHolds, BlocksPlaced, ClosedExcept;
      self := ptr;
      EnterKeeps(owner, code, index, view, stack, self, key);
      Link(key, slot, lastOffset, self);
      ptr := ptr + HEADER_SIZE;
    }

    /** Puts the code of the block just entered in place. */
    method PlaceBlock(self: nat, pc: u32, mode: Mode, b: Block, ghost stack: set<nat>)
      requires Entered(self, pc, mode, stack)
      requires b.pc == pc && b.mode == mode && b.entry == ptr + emit.prologue && ptr < b.end <= Roof() && ExitsInside(b)
      modifies `code, `ptr, `dirty
      ensures Ready(stack)
      ensures code == old(code)[self := b] && ptr == b.end
    {
      hide IndexHolds, BlocksPlaced, ClosedExcept;
      PlaceNewest(owner, code, index, self, b.end, view, stack, self, b);
      code := code[self := b];
      ptr := b.end;
      dirty := dirty + {(self, ptr)};
    }

    /** Stores a patched branch of a block on the stack. */
    method StorePatch(self: nat, j: nat, link: Target, ghost stack: set<nat>)
      requires Ready(stack) && self in stack && self in code && j < |code[self].exits|
      modifies `code, `dirty
      ensures Ready(stack)
      ensures code == old(code)[self := code[self]] && SameCode(old(code[self]), code[self])
      ensures code[self].exits == old(code[self].exits)[j := old(code[self].exits[j]).(link := link)]
    {
      hide IndexHolds, ClosedExcept;
      var b := code[self];
      var patched := b.(exits := b.exits[j := b.exits[j].(link := link)]);
      PatchKeeps(owner, code, index, ptr, view, stack, self, patched);
      assert self + HEADER_SIZE <= b.exits[j].branch.lo < b.exits[j].branch.hi <= ptr;
      code := code[self := patched];
      dirty := dirty + {(b.exits[j].branch.lo, b.exits[j].branch.hi)};
    }

    /** The guarantee of every step of the recursion: published blocks keep their keys, their places and
        their code (apart from the block being worked on), and the code only grows. */
    twostate predicate Grew(except: set<nat>)
      reads this
    {
      && Extends(old(index), old(owner), old(code), index, owner, code, except)
      && old(ptr) <= ptr && lastPtr == old(lastPtr)
    }

    /** Exit `j` of a block has been patched well, and the rest of the block is as it was. */
    twostate predicate Patched(self: nat, j: nat)
      requires self in old(code) && j < |old(code[self].exits)|
      reads `code, `index
    {
      && self in code && SameCode(old(code[self]), code[self])
      && LinkGood(code[self], code[self].exits[j], index, view)
      && forall i | 0 <= i < |code[self].exits| && i != j :: code[self].exits[i] == old(code[self]).exits[i]
    }

    /** These keys have all that the block leads to through exit `j`. */
    ghost predicate Leads(keys: set<u32>, b: Block, j: nat)
      requires j < |b.exits|
    {
      ClosedKeys(keys, view) && LeadsInto(keys, view, b.pc, b.endPc, b.mode, b.exits[j].branch.target)
    }

    /** Patches exit `j` of the block at `self`, unless it stays inside the block: looks its target up,
        translating it if need be. */
    method PatchExit(self: nat, j: nat, ghost stack: set<nat>, ghost keys: set<u32>) returns (ok: bool)
      requires self in stack && self in code && j < |code[self].exits|
      requires !view.a.isRam(code[self].exits[j].branch.target)
      requires InsideLinked(code[self], code[self].exits[j])
      requires Ready(stack) && Sound(view.a) && StaysOutOfRam(view.guest, view.a)
      modifies this, hash
      ensures ok ==> Grew({self}) && Patched(self, j)
      ensures old(Fits(keys, 0) && Leads(keys, code[self], j)) ==> ok && Fits(keys, 0)
      ensures if ok then Ready(stack) else Flushed() && Ready({})
      decreases cacheSize - ptr, 2
    {
      hide IndexHolds, SpaceHolds, BlocksPlaced, ClosedExcept, Sound, StaysOutOfRam, ClosedKeys, Cost, Fits;
      assert self in owner;
      hide StackHolds, Extends;
      ExtendsSelf(index, owner, code);
      var b := code[self];
      var target := b.exits[j].branch.target;
      if StaysInside(b, b.exits[j]) {
        return true;
      }
      var link := view.bios;
      if target != SWI_VECTOR {
        link := LookupTranslate(target, b.mode, stack, keys);
        if link.Null? {
          return false;
        }
        ExtendsAt(old(index), old(owner), old(code), index, owner, code, {}, self);
      }
      ghost var between := code;
      StorePatch(self, j, link, stack);
      ExtendsPatched(old(index), old(owner), old(code), self, code[self], index, owner, between);
      ok := true;
    }

    /** Translates the block whose header was just published at `self`. On success the block is complete
        and so is every block published since; on failure the cache has been flushed. With room for the block and
        for all that it leads to, it succeeds. */
    method TranslateBlock(self: nat, pc: u32, mode: Mode, ghost stack: set<nat>, ghost keys: set<u32>)
      returns (ok: bool)
      requires Entered(self, pc, mode, stack) && Sound(view.a) && StaysOutOfRam(view.guest, view.a)
      modifies this, hash
      ensures !ok ==> Flushed() && Ready({})
      ensures ok ==> Ready(stack - {self}) && Grew({self})
      ensures old(Fits(keys, Largest(MAX_BLOCK_SIZE))) && ClosesAround(keys, view, pc, mode) ==> ok && Fits(keys, 0)
      decreases cacheSize - ptr, 0
    {
      hide IndexHolds, BlocksPlaced, ClosedExcept, Sound, StaysOutOfRam, ClosedKeys, ClosedAt, Cost;
      hide Bounds.Most;
      hide Emitting, Numbered, InOwnCode, OffsetsRise, Extends;
      var scanned := Scan(view.guest, mode, pc);
      ExitsOfScan(scanned, view.guest, mode, pc);
      LargestGrows(|scanned.exits|);
      hide IsScanOf;
      var overflow, emitted := EmitBlock(pc, mode, scanned);
      if overflow {
        Flush();
        return false;
      }
      var block := PatchInternal(emitted);
      TranslationStays(emitted, block, scanned, view.guest);
      PlaceBlock(self, pc, mode, block, stack);
      ok := PatchExits(self, scanned, stack, keys);
      if ok {
        ExtendsPlaced(old(index), old(owner), old(code), self, block, index, owner, code);
      }
    }

    /** Patches all exits of a block. */
    method PatchExits(self: nat, scanned: Scanned, ghost stack: set<nat>, ghost keys: set<u32>) returns (ok: bool)
      requires self in stack && self in owner && self in code
      requires view.a.isRom(code[self].pc) && Translates(code[self], scanned, view.guest)
      requires forall i | 0 <= i < |code[self].exits| :: InsideLinked(code[self], code[self].exits[i])
      requires Ready(stack) && Sound(view.a) && StaysOutOfRam(view.guest, view.a)
      modifies this, hash
      ensures ok ==> Grew({self})
      ensures old(Fits(keys, 0) && ClosesAround(keys, view, code[self].pc, code[self].mode)) ==> ok && Fits(keys, 0)
      ensures if ok then Ready(stack - {self}) else Flushed() && Ready({})
      decreases cacheSize - ptr, 3
    {
      hide IndexHolds, SpaceHolds, BlocksPlaced, Sound, StaysOutOfRam, Translates, IsTranslation, IsScanOf;
      hide ClosedKeys, ClosedAt, LeadsInto, Fits, InsideLinked, LinkGood;
      ghost var block := code[self];
      ghost var fits := Fits(keys, 0) && ClosesAround(keys, view, block.pc, block.mode);
      var j := 0;
      while j < |code[self].exits|
        invariant 0 <= j <= |block.exits|
        invariant Ready(stack) && Grew({self})
        invariant self in code && SameCode(block, code[self])
        invariant forall i | 0 <= i < j :: LinkGood(code[self], code[self].exits[i], index, view)
        invariant forall i | j <= i < |block.exits| :: code[self].exits[i] == block.exits[i]
        invariant fits ==> Fits(keys, 0)
        decreases |block.exits| - j
      {
        TranslationStays(block, code[self], scanned, view.guest);
        TargetAt(code[self], scanned, view.guest, j);
        ExitOutOfRam(view.guest, view.a, block.mode, block.pc, scanned, code[self].exits[j].branch.target);
        CodeHasPlan(block, code[self]);
        StillLands(block, code[self], block.exits[j]);
        if fits {
          BranchLeadsInto(keys, view, code[self], scanned, j);
        }
        ghost var before, index0 := code[self], index;
        ok := PatchExit(self, j, stack, keys);
        if !ok {
          return;
        }
        forall i | 0 <= i < j
          ensures LinkGood(code[self], code[self].exits[i], index, view)
        {
          LinkStaysGood(before, code[self], before.exits[i], index0, index, view);
        }
        j := j + 1;
      }
      TranslationStays(block, code[self], scanned, view.guest);
      ok := true;
    }

    /** Entering a block of these keys leaves room for its code. */
    lemma StillFits(keys: set<u32>, before: map<u32, nat>, key: u32, self: nat)
      requires FitsAt(self, before, keys, 0) && key in keys && key !in before
      requires index == before[key := self] && ptr == self + HEADER_SIZE
      ensures Fits(keys, Largest(MAX_BLOCK_SIZE))
    {
      hide Cost, Largest;
      OneFewer(keys, before, key, self);
      CostOne(|keys - index.Keys|);
    }

    /** Publishes and translates the block for `pc`, which is not in the cache. */
    method TranslateNew(key: u32, slot: nat, lastOffset: nat, pc: u32, mode: Mode, ghost stack: set<nat>,
                        ghost keys: set<u32>) returns (r: Target)
      requires Ready(stack) && Sound(view.a) && StaysOutOfRam(view.guest, view.a)
      requires view.a.isRom(pc) && view.a.keyOf(pc, mode) == key && slot == view.a.slotOf(key) < HASH_SIZE
      requires key !in index && lastOffset == LastOf(chains[slot])
      modifies this, hash
      ensures r.Null? ==> Flushed() && Ready({})
      ensures !r.Null? ==> Ready(stack) && Grew({}) && key in index && r == At(index[key] + view.bodyOffset)
      ensures old(Fits(keys, 0)) && ClosesOver(keys, view, pc, mode) ==> !r.Null? && Fits(keys, 0)
      decreases cacheSize - ptr, 0
    {
      hide IndexHolds, BlocksPlaced, ClosedExcept, StaysOutOfRam, ClosedKeys, ClosesAround, Cost, Largest, Extends;
      hide StackHolds, SpaceHolds, Sound, ClosesOver, FitsAt, Bounds.Most;
      var start := view.a.align(pc, mode);
      AlignSound(view.a, pc, mode);
      ghost var before := index;
      var self := Enter(key, slot, lastOffset, start, mode, stack);
      if ClosesOver(keys, view, pc, mode) {
        ClosedHere(keys, view, pc, mode);
        if old(Fits(keys, 0)) {
          StillFits(keys, before, key, self);
        }
      }
      var ok := TranslateBlock(self, start, mode, stack + {self}, keys);
      if !ok {
        return Null;
      }
      OffTheStack(stack, self);
      ExtendsNew(before, old(owner), old(code), key, self, index, owner, code);
      r := At(self + view.bodyOffset);
    }

    /** Looks up the block for `pc`, translating it when it is not in the cache. A null result means the
        cache overflowed and was flushed; otherwise the blocks still incomplete are those on the stack,
        as before, and everything published before is still there. It is never null if `keys` has the block and
        all it leads to, and there is room for those of them that are not there yet. */
    method LookupTranslate(pc: u32, mode: Mode, ghost stack: set<nat>, ghost keys: set<u32>) returns (r: Target)
      requires Ready(stack) && Sound(view.a) && StaysOutOfRam(view.guest, view.a) && !view.a.isRam(pc)
      modifies this, hash
      ensures r.Null? ==> Flushed() && Ready({})
      ensures !r.Null? ==> Ready(stack) && Grew({})
      ensures !r.Null? && view.a.isRom(pc) ==>
                view.a.keyOf(pc, mode) in index && r == At(index[view.a.keyOf(pc, mode)] + view.bodyOffset)
      ensures !view.a.isRom(pc) ==> r == Unmapped && index == old(index)
      ensures view.a.keyOf(pc, mode) in old(index) ==> !r.Null? && index == old(index) && ptr == old(ptr)
      ensures old(Fits(keys, 0)) && ClosesOver(keys, view, pc, mode) ==> !r.Null? && Fits(keys, 0)
      decreases cacheSize - ptr, 1
    {
      hide IndexHolds, BlocksPlaced, ClosedExcept, StaysOutOfRam, ClosesOver, FitsAt, Sound, StackHolds;
      ExtendsSelf(index, owner, code);
      if !view.a.isRom(pc) {
        return Unmapped;
      }
      var key := view.a.keyOf(pc, mode);
      var slot := view.a.slotOf(key);
      SlotSound(view.a, key);
      var offset, lastOffset := FindInChain(key, slot);
      if offset != 0 {
        return At(offset + view.bodyOffset);
      }
      r := TranslateNew(key, slot, lastOffset, pc, mode, stack, keys);
    }

    /** Synchronises the instruction cache with one ranged operation over [from, to), which covers every
        byte emitted or patched since the last one; nothing is done when the range is empty. */
    method SyncICache() returns (from: nat, to: nat)
      requires SpaceHolds()
      modifies `lastPtr, `dirty
      ensures SpaceHolds() && dirty == {} && lastPtr == ptr
      ensures forall range | range in old(dirty) :: from <= range.0 < range.1 <= to
    {
      from, to := lastPtr, ptr;
      if lastPtr < ptr {
        lastPtr := ptr;
      }
      dirty := {};
    }

    /** The entry point of the translated code: the code for `pc`, trying again after each flush, up to
        four times. A result other than null leaves every published block complete and every byte of
        code synchronised; null leaves an empty cache. It is never null if the block and all it leads to fit into
        an empty cache. */
    method LookupAddress(pc: u32, mode: Mode, ghost keys: set<u32>) returns (r: Target, ghost flushed: bool)
      requires Ready({}) && dirty == {}
      requires Sound(view.a) && StaysOutOfRam(view.guest, view.a) && !view.a.isRam(pc)
      modifies this, hash
      ensures Ready({}) && dirty == {}
      ensures r.Null? ==> flushed && index == map[] && ptr == watermark
      ensures !r.Null? ==> forall k | k in index :: Complete(code[index[k]], index, view)
      ensures !r.Null? && view.a.isRom(pc) ==>
                && view.a.keyOf(pc, mode) in index
                && var b := code[index[view.a.keyOf(pc, mode)]];
                r == At(b.entry) && b.pc == view.a.align(pc, mode) && b.mode == mode
      ensures !view.a.isRom(pc) ==> r == Unmapped
      ensures !flushed ==> forall k | k in old(index) :: k in index && index[k] == old(index)[k]
      ensures view.a.keyOf(pc, mode) in old(index) ==> !flushed
      ensures ClosesOver(keys, view, pc, mode) && FitsEmpty(keys) ==> !r.Null?
      ensures ClosesOver(keys, view, pc, mode) && old(Fits(keys, 0)) ==> !flushed
    {
      hide BlocksPlaced, StaysOutOfRam, ChainsFormed, ChainsHold, KeysStored, Complete, Sound, SpaceHolds, Sizes;
      hide ClosesOver, Fits, FitsEmpty, ClosedExcept, IsIndex;
      r, flushed := Null, false;
      var i := 0;
      while i < 4
        invariant Ready({}) && dirty == {} && r == Null
        invariant 0 <= i <= 4 && (flushed <==> i > 0)
        invariant i > 0 ==> index == map[] && ptr == watermark
        invariant !flushed ==> index == old(index) && ptr == old(ptr)
        invariant i > 1 ==> !(ClosesOver(keys, view, pc, mode) && FitsEmpty(keys))
        invariant i > 0 ==> !(ClosesOver(keys, view, pc, mode) && old(Fits(keys, 0)))
        invariant view.a.keyOf(pc, mode) in old(index) || !view.a.isRom(pc) ==> i == 0
      {
        if i > 0 {
          EmptyFits(keys);
        }
        r := LookupTranslate(pc, mode, {}, keys);
        if !r.Null? {
          if view.a.isRom(pc) {
            EntryOf(view.a.keyOf(pc, mode), index, owner, code, ptr, view);
            ghost var b := code[index[view.a.keyOf(pc, mode)]];
            KeyTells(view.a, b.pc, b.mode, pc, mode);
          }
          AllComplete(owner, code, index, view);
          var _, _ := SyncICache();
          return;
        }
        flushed := true;
        i := i + 1;
      }
    }
  }

  // ----------------------------------------------------------------------------------------------
  // A run in which a branch takes the exit of another instruction
  // ----------------------------------------------------------------------------------------------

  const CARTRIDGE: u32 := 0x8000000

  /** An opcode of the row that the translator has no case for, then BEQ to 0x8000026, then BX r14. */
  const MISLED := Guest((pc: u32) => 0, (pc: u32) => MisledHalf(pc), [], DECODER)

  function MisledHalf(pc: u32): Interp.Opcode {
    if pc == CARTRIDGE then 0xDE00 else if pc == CARTRIDGE + 2 then 0xD010 else 0x4770
  }

  lemma MisledAt(i: nat)
    requires i < 3
    ensures PcAt(Thumb, CARTRIDGE, i) == CARTRIDGE + 2 * i && PcAt(Thumb, CARTRIDGE, i + 1) == CARTRIDGE + 2 * i + 2
    ensures OpcodeAt(MISLED, Thumb, PcAt(Thumb, CARTRIDGE, i)) == [0xDE00, 0xD010, 0x4770][i]
    ensures ExitOf(MISLED, Thumb, CARTRIDGE, i) == [Some(0x8000004), Some(0x8000026), None][i]
    ensures Skipped(Thumb, [0xDE00, 0xD010, 0x4770][i]) <==> i == 0
  {
  }

  lemma MisledScan(s: Scanned)
    requires IsScanOf(s, MISLED, Thumb, CARTRIDGE)
    ensures s.exits == [Some(0x8000004), Some(0x8000026), None] && s.endPc == CARTRIDGE + 6
    ensures s.targets == [0x8000004, 0x8000026]
    ensures Emitting(MISLED, Thumb, CARTRIDGE, s) == [false, true, false]
  {
    MisledLength(s);
    MisledAt(0);
    MisledAt(1);
    MisledAt(2);
    hide ExitOf, PcAt, OpcodeAt;
    assert s.exits[..3] == s.exits && s.exits[..0] == [];
    DirectOne(s.exits, 0);
    DirectOne(s.exits, 1);
    DirectOne(s.exits, 2);
  }

  lemma MisledLength(s: Scanned)
    requires IsScanOf(s, MISLED, Thumb, CARTRIDGE)
    ensures |s.exits| == 3
  {
    MisledAt(0);
    MisledAt(1);
    MisledAt(2);
    assert |s.exits| > 3 ==> Reached(s.exits, MISLED, Thumb, CARTRIDGE, 3);
  }

  /** Only the BEQ has a branch, and it is emitted with the target recorded for the opcode before it. */
  lemma MisledBranch(b: Block)
    requires b.pc == CARTRIDGE && b.mode == Thumb && IsTranslation(b, MISLED)
    ensures |b.offsets| == 3 && b.endPc == CARTRIDGE + 6
    ensures |b.exits| == 1 && b.exits[0].branch.insn == 1 && b.exits[0].branch.target == 0x8000004
  {
    var s: Scanned :| Translates(b, s, MISLED);
    MisledScan(s);
    MisledCount();
    hide IsScanOf, Emitting, Count, OffsetsRise, InOwnCode;
    assert BranchesOf(b.exits)[0] == b.exits[0].branch;
  }

  lemma MisledCount()
    ensures Count([false, true, false]) == 1
  {
    assert [false, true, false][..2] == [false, true] && [false, true][..1] == [false] && [false][..0] == [];
  }

  lemma MisledCloses(v: View)
    requires v.a == ADDRESSING && v.guest == MISLED
    ensures ClosesOver({KeyOf(CARTRIDGE, Thumb)}, v, CARTRIDGE, Thumb)
  {
    hide IsRom, KeyOf, ClosedAt;
    var keys := {KeyOf(CARTRIDGE, Thumb)};
    MisledIsRom();
    MisledStaysInside(keys, v);
    forall pc: u32, mode: Mode | IsRom(pc) && KeyOf(pc, mode) in keys
      ensures ClosedAt(keys, v, Align(pc, mode), mode)
    {
      KeysTellBlocksApart(pc, mode, CARTRIDGE, Thumb);
    }
  }

  lemma MisledStaysInside(keys: set<u32>, v: View)
    requires v.a == ADDRESSING && v.guest == MISLED
    ensures ClosedAt(keys, v, CARTRIDGE, Thumb)
  {
    forall s: Scanned | IsScanOf(s, MISLED, Thumb, CARTRIDGE)
      ensures ExitsInto(keys, v, CARTRIDGE, Thumb, s)
    {
      MisledScan(s);
      MisledCount();
    }
  }

  lemma MisledStaysOutOfRam()
    ensures StaysOutOfRam(MISLED, ADDRESSING)
  {
    OnlyTheBiosMatters(MISLED);
  }

  /** The first block of the cartridge is looked up right after start-up. Its BEQ leads to the return two bytes
      further, where it leads to anyway if it is not to be taken, instead of to 0x8000026. */
  method RunMisled() returns (c: RomCache, ghost b: Block)
    ensures fresh(c) && KeyOf(CARTRIDGE, Thumb) in c.index
    ensures c.index[KeyOf(CARTRIDGE, Thumb)] in c.code && b == c.code[c.index[KeyOf(CARTRIDGE, Thumb)]]
    ensures |b.offsets| == 3 && |b.exits| == 1
    ensures b.exits[0].branch.insn == 1 && b.exits[0].link == At(b.offsets[2])
  {
    c := new RomCache(MISLED, 1024 * 1024 * 2, Bounds(0, 64, 64, 24, 1, 32), INITIAL_WATERMARK, 0);
    RoomForOne(c, KeyOf(CARTRIDGE, Thumb));
    b := LookupMisled(c);
  }

  lemma RoomForOne(c: RomCache, key: u32)
    requires c.cacheSize == 1024 * 1024 * 2 && c.emit == Bounds(0, 64, 64, 24, 1, 32) && c.watermark == 16
    ensures c.FitsEmpty({key})
  {
    assert c.emit.Most(MAX_BLOCK_SIZE) == MAX_BLOCK_SIZE * 88;
    c.CostOne(0);
  }

  method LookupMisled(c: RomCache) returns (ghost b: Block)
    requires c.Ready({}) && c.dirty == {} && c.view.a == ADDRESSING && c.view.guest == MISLED
    requires c.FitsEmpty({KeyOf(CARTRIDGE, Thumb)})
    modifies c, c.hash
    ensures KeyOf(CARTRIDGE, Thumb) in c.index
    ensures c.index[KeyOf(CARTRIDGE, Thumb)] in c.code && b == c.code[c.index[KeyOf(CARTRIDGE, Thumb)]]
    ensures |b.offsets| == 3 && |b.exits| == 1
    ensures b.exits[0].branch.insn == 1 && b.exits[0].link == At(b.offsets[2])
  {
    hide KeyOf, StaysOutOfRam, Sound, ClosesOver, IsRom, IsRam, Complete;
    AddressingIsSound();
    MisledCloses(c.view);
    MisledStaysOutOfRam();
    MisledIsRom();
    var _, _ := c.LookupAddress(CARTRIDGE, Thumb, {KeyOf(CARTRIDGE, Thumb)});
    b := c.code[c.index[KeyOf(CARTRIDGE, Thumb)]];
    MisledLink(b, c.index, c.view);
  }

  lemma MisledIsRom()
    ensures IsRom(CARTRIDGE) && !IsRam(CARTRIDGE) && Align(CARTRIDGE, Thumb) == CARTRIDGE
  {
  }

  lemma MisledLink(b: Block, index: map<u32, nat>, v: View)
    requires b.pc == CARTRIDGE && b.mode == Thumb && Complete(b, index, v) && v.a == ADDRESSING && v.guest == MISLED
    ensures |b.offsets| == 3 && |b.exits| == 1
    ensures b.exits[0].branch.insn == 1 && b.exits[0].link == At(b.offsets[2])
  {
    hide IsTranslation;
    MisledBranch(b);
    assert LinkGood(b, b.exits[0], index, v);
    MisledAt(0);
    MisledAt(1);
    MisledAt(2);
    var i: nat :| LandsOn(b, b.exits[0], i);
  }
}
