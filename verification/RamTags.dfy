/** The tags of the RAM cache: 16-bit numbers in a mirror of each RAM region, which say where guest code has
    been translated, and name entries of a block table that grows down from the end of the cache. */
module RamTags {
  import opened Basics
  import opened BlockScan

  const LAST_TAG_NUM := 0x0101
  const CODE_TAG := 0x0101
  const INITIAL_TOP_TAG := 0xFFFF
  const SLOT_SIZE := 8
  const LIMIT_THRESHOLD := 2048
  const NO_MINIMUM := 0xFFFF_FFFF

  /** The larger of the two cache sizes; the least code that a block takes for tags to stay valid, and for them to
      name entries inside the cache. */
  const MAX_CACHE_SIZE := 0x80000
  const MIN_BLOCK := 9
  const LASTING_BLOCK := 24

  predicate ValidTag(tag: nat) { tag > LAST_TAG_NUM }

  // ----------------------------------------------------------------------------------------------
  // Tags name slots of the block table
  // ----------------------------------------------------------------------------------------------

  /** Where the table entry of a tag lies: the tag is read as a signed 16-bit number and halved, and the
      result indexes 8-byte entries from the end of the cache. */
  function SlotAddress(cacheSize: nat, tag: nat): int
    requires tag < 0x10000
  {
    var signed := if tag < 0x8000 then tag else tag - 0x10000;
    cacheSize + 8 * (signed / 2)
  }

  /** The n-th tag handed out since the last flush, counted from 0. */
  function TagNumber(n: nat): int { INITIAL_TOP_TAG - 2 * n }

  /** As long as tags stay at 0x8001 or above, the n-th one names the n-th slot below the end of the
      cache; below that they would name memory beyond it. */
  lemma TagsNameSlots(cacheSize: nat, n: nat)
    requires TagNumber(n) > 0
    ensures TagNumber(n) >= 0x8001 <==> SlotAddress(cacheSize, TagNumber(n)) == cacheSize - 8 * (n + 1)
    ensures TagNumber(n) >= 0x8001 <==> SlotAddress(cacheSize, TagNumber(n)) < cacheSize
  {
    assert TagNumber(n) % 2 == 1;
    if TagNumber(n) >= 0x8001 {
      assert TagNumber(n) - 0x10000 == -2 * n - 1;
      assert (-2 * n - 1) / 2 == -(n + 1);
    }
  }

  /** With `n` blocks of at least `least` bytes and their table entries, there is room for one more. */
  predicate RoomForTag(cacheSize: nat, gateMax: nat, least: nat, n: nat) {
    least * n + SLOT_SIZE * n + LIMIT_THRESHOLD <= cacheSize + gateMax
  }

  lemma RoomGrows(cacheSize: nat, gateMax: nat, least: nat, m: nat, n: nat)
    requires m <= n && RoomForTag(cacheSize, gateMax, least, n)
    ensures RoomForTag(cacheSize, gateMax, least, m)
  {
    assert least * n == least * m + least * (n - m);
  }

  /** Every tag names an entry inside the cache exactly if the cache fills up before the 0x4000th block. */
  lemma TagsLastIff(cacheSize: nat, gateMax: nat, least: nat)
    ensures (forall n: nat | RoomForTag(cacheSize, gateMax, least, n) && TagNumber(n) > 0 ::
               SlotAddress(cacheSize, TagNumber(n)) < cacheSize) <==>
            (least + SLOT_SIZE) * 0x4000 + LIMIT_THRESHOLD > cacheSize + gateMax
  {
    hide SlotAddress, RoomForTag;
    RoomAt(cacheSize, gateMax, least);
    if RoomForTag(cacheSize, gateMax, least, 0x4000) {
      TagsNameSlots(cacheSize, 0x4000);
    } else {
      forall n: nat | RoomForTag(cacheSize, gateMax, least, n) && TagNumber(n) > 0
        ensures SlotAddress(cacheSize, TagNumber(n)) < cacheSize
      {
        if n >= 0x4000 {
          RoomGrows(cacheSize, gateMax, least, 0x4000, n);
        }
        TagsNameSlots(cacheSize, n);
      }
    }
  }

  lemma RoomAt(cacheSize: nat, gateMax: nat, least: nat)
    ensures RoomForTag(cacheSize, gateMax, least, 0x4000) <==>
            (least + SLOT_SIZE) * 0x4000 + LIMIT_THRESHOLD <= cacheSize + gateMax
  {
  }

  /** Ten bytes, as much as a gate takes on x86, are too few in a cache of either size. */
  lemma GatesAloneOutrunTags(gateMax: nat)
    ensures exists n: nat ::
              && RoomForTag(0x60000, gateMax, 10, n) && TagNumber(n) > LAST_TAG_NUM
              && SlotAddress(0x60000, TagNumber(n)) >= 0x60000
    ensures exists n: nat ::
              && RoomForTag(MAX_CACHE_SIZE, gateMax, 10, n) && TagNumber(n) > LAST_TAG_NUM
              && SlotAddress(MAX_CACHE_SIZE, TagNumber(n)) >= MAX_CACHE_SIZE
  {
    TagsNameSlots(0x60000, 0x4000);
    TagsNameSlots(MAX_CACHE_SIZE, 0x4000);
    assert RoomForTag(0x60000, gateMax, 10, 0x4000) && RoomForTag(MAX_CACHE_SIZE, gateMax, 10, 0x4000);
  }

  /** Different live tags have different slots. */
  lemma SlotsDiffer(cacheSize: nat, s: nat, t: nat)
    requires s % 2 == 1 && t % 2 == 1 && s < 0x10000 && t < 0x10000
    ensures SlotAddress(cacheSize, s) == SlotAddress(cacheSize, t) <==> s == t
  {
  }

  // ----------------------------------------------------------------------------------------------
  // One tag mirror, with the bounds of the code translated from its region
  // ----------------------------------------------------------------------------------------------

  lemma TwiceIsEven(k: nat)
    ensures 2 * k % 2 == 0
  {
  }

  function RoundDown16(x: nat): (r: nat)
    ensures x - 16 < r <= x && r % 2 == 0
  {
    var sixteenths := x / 16;
    TwiceIsEven(8 * sixteenths);
    2 * (8 * sixteenths)
  }

  /** The halfwords that a flush of the region zeroes, from the bounds at that time. */
  predicate Cleared(size: nat, codeMin: nat, codeMax: nat, i: nat) {
    codeMax != 0 &&
    (codeMax > codeMin ==>
       RoundDown16(codeMin) <= 2 * i && 2 * i + 1 < (if codeMax + 8 < size then codeMax + 8 else size))
  }

  /** The same halfwords hold the same valid tags. */
  predicate SameValidTags(a: seq<nat>, b: seq<nat>) {
    && |a| == |b|
    && forall i | 0 <= i < |a| && (ValidTag(a[i]) || ValidTag(b[i])) :: a[i] == b[i]
  }

  /** Valid tags stay as they are, and what is tagged stays tagged. */
  predicate KeptTags(a: seq<nat>, b: seq<nat>) {
    && |a| == |b|
    && forall i | 0 <= i < |a| && a[i] != 0 :: b[i] != 0 && (ValidTag(a[i]) ==> b[i] == a[i])
  }

  class TagMirror {
    const size: nat
    const tags: array<nat>
    var codeMin: nat
    var codeMax: nat

    ghost predicate Valid()
      reads this, tags
    {
      && 0 < size < NO_MINIMUM && tags.Length * 2 == size
      && codeMax <= size && codeMax % 2 == 0
      && (codeMin == NO_MINIMUM ==> codeMax == 0)
      && (codeMin != NO_MINIMUM ==> codeMin <= codeMax && codeMin % 2 == 0)
    }

    /** As set up at start-up: no tags, and bounds that cover the whole region. */
    constructor (size: nat)
      requires size % 2 == 0 && 0 < size < NO_MINIMUM
      ensures Valid() && this.size == size && fresh(tags)
      ensures forall i | 0 <= i < tags.Length :: tags[i] == 0
      ensures codeMin == 0 && codeMax == size
    {
      this.size := size;
      tags := new nat[size / 2](_ => 0);
      codeMin, codeMax := 0, size;
    }

    /** An instruction at byte `offset` of the region is being translated. */
    method UpdateLimits(offset: nat)
      requires Valid() && offset < size && offset % 2 == 0
      modifies this
      ensures Valid()
      ensures codeMin == Min(old(codeMin), offset) && codeMax == Max(old(codeMax), offset)
    {
      codeMin := if offset < codeMin then offset else codeMin;
      codeMax := if offset > codeMax then offset else codeMax;
    }

    /** Tags a scanned instruction as code unless something is tagged there already. An ARM instruction
        is tagged only when both its halfwords are free. */
    method MarkCode(i: nat, mode: Mode)
      requires i < tags.Length && (mode.Arm? ==> i + 1 < tags.Length)
      modifies tags
      ensures SameValidTags(old(tags[..]), tags[..]) && KeptTags(old(tags[..]), tags[..])
      ensures if mode.Thumb? then tags[i] != 0 else tags[i] != 0 || tags[i + 1] != 0
    {
      if mode.Arm? {
        if tags[i] == 0 && tags[i + 1] == 0 {
          tags[i], tags[i + 1] := CODE_TAG, CODE_TAG;
        }
      } else if tags[i] == 0 {
        tags[i] := CODE_TAG;
      }
    }

    /** Tags the start of a block. */
    method StoreTag(i: nat, tag: nat, mode: Mode)
      requires i < tags.Length && (mode.Arm? ==> i + 1 < tags.Length)
      requires ValidTag(tag) && !ValidTag(tags[i])
      modifies tags
      ensures SameValidTags(old(tags[..])[i := tag], tags[..]) && tags[i] == tag
      ensures KeptTags(old(tags[..]), tags[..])
    {
      tags[i] := tag;
      if mode.Arm? && tags[i + 1] == 0 {
        tags[i + 1] := CODE_TAG;
      }
    }

    /** Zeroes the bytes [from, to) of the mirror. */
    method ClearHalfwords(from: nat, to: nat)
      requires from % 2 == 0 && to % 2 == 0 && from <= to <= 2 * tags.Length
      modifies tags
      ensures forall i | 0 <= i < tags.Length :: tags[i] == if from <= 2 * i < to then 0 else old(tags[i])
    {
      forall i | from / 2 <= i < to / 2 {
        tags[i] := 0;
      }
    }

    /** Clears the part of the mirror that the bounds say is in use, and resets the bounds. */
    method Flush()
      requires Valid()
      modifies this, tags
      ensures Valid() && codeMin == NO_MINIMUM && codeMax == 0
      ensures tags[..] == AfterFlush(old(tags[..]), old(codeMin), old(codeMax))
    {
      if codeMax != 0 {
        if codeMax > codeMin {
          codeMin := RoundDown16(codeMin);
          codeMax := if codeMax + 8 < size then codeMax + 8 else size;
          ClearHalfwords(codeMin, codeMax);
        } else {
          ClearHalfwords(0, size);
        }
      }
      assert forall i | 0 <= i < tags.Length ::
          tags[i] == if Cleared(size, old(codeMin), old(codeMax), i) then 0 else old(tags[i]);
      codeMin, codeMax := NO_MINIMUM, 0;
      assert 2 * |old(tags[..])| == size;
    }
  }

  /** Every valid tag of the region lies within the bounds. */
  predicate WithinBounds(tags: seq<nat>, codeMin: nat, codeMax: nat) {
    forall i | 0 <= i < |tags| && ValidTag(tags[i]) :: codeMin <= 2 * i <= codeMax
  }

  /** The tags a flush leaves. */
  function AfterFlush(tags: seq<nat>, codeMin: nat, codeMax: nat): seq<nat> {
    seq(|tags|, i requires 0 <= i < |tags| =>
      if Cleared(2 * |tags|, codeMin, codeMax, i) then 0 else tags[i])
  }

  predicate NoValidTag(tags: seq<nat>) {
    forall i | 0 <= i < |tags| :: !ValidTag(tags[i])
  }

  /** When valid tags lie within the bounds, a flush removes all of them exactly when the upper bound is
      not zero or the first halfword holds no valid tag: the guard on the bound misses a region whose
      only translated instruction is its very first one. */
  lemma FlushCompleteIff(tags: seq<nat>, codeMin: nat, codeMax: nat)
    requires WithinBounds(tags, codeMin, codeMax) && (codeMin % 2 == 0 || codeMax == 0)
    ensures NoValidTag(AfterFlush(tags, codeMin, codeMax)) <==>
            codeMax > 0 || |tags| == 0 || !ValidTag(tags[0])
  {
    var after := AfterFlush(tags, codeMin, codeMax);
    if codeMax > 0 {
      forall i | 0 <= i < |tags|
        ensures !ValidTag(after[i])
      {
        assert ValidTag(tags[i]) ==> Cleared(2 * |tags|, codeMin, codeMax, i);
      }
    } else if |tags| > 0 && ValidTag(tags[0]) {
      assert after[0] == tags[0];
    }
  }

  /** The corner is real: one tag at the start of a region, bounds both zero, and the flush keeps it. */
  lemma FlushMissesTheFirstHalfword(n: nat)
    requires n > 0
    ensures var tags := seq(n, i => if i == 0 then INITIAL_TOP_TAG else 0);
            WithinBounds(tags, 0, 0) && AfterFlush(tags, 0, 0)[0] == INITIAL_TOP_TAG
  {
  }

  // ----------------------------------------------------------------------------------------------
  // Invariants of the tags, over values
  // ----------------------------------------------------------------------------------------------

  const IWRAM_SIZE := 0x8000
  const EWRAM_SIZE := 0x40000

  /** A halfword of guest RAM. */
  datatype Loc = Loc(inEwram: bool, i: nat)

  /** Where the code of a block lies in the cache, for each instruction set; zero when there is none. */
  datatype Slot = Slot(arm: nat, thumb: nat) {
    function For(mode: Mode): nat { if mode.Arm? then arm else thumb }

    function With(mode: Mode, offset: nat): Slot {
      if mode.Arm? then Slot(offset, thumb) else Slot(arm, offset)
    }
  }

  /** Each valid tag was handed out since the last flush, to the halfword it sits in, which lies within
      the bounds of translated code unless its first instruction is still to be translated. */
  predicate TagsOwned(tags: seq<nat>, inEwram: bool, holder: map<nat, Loc>, codeMin: nat, codeMax: nat,
                      pending: set<Loc>)
  {
    forall i | 0 <= i < |tags| && ValidTag(tags[i]) ::
      && tags[i] in holder && holder[tags[i]] == Loc(inEwram, i)
      && (Loc(inEwram, i) !in pending ==> codeMin <= 2 * i <= codeMax)
  }

  predicate SlotsPresent(tags: seq<nat>, slots: map<int, Slot>, cacheSize: nat) {
    forall i | 0 <= i < |tags| && ValidTag(tags[i]) ::
      tags[i] < 0x10000 && SlotAddress(cacheSize, tags[i]) in slots
  }

  /** The tags in use have been handed out. */
  predicate HolderHolds(holder: map<nat, Loc>, blockTag: int) {
    forall t | t in holder :: Live(t, blockTag)
  }

  lemma OwnedSame(a: seq<nat>, b: seq<nat>, inEwram: bool, holder: map<nat, Loc>, codeMin: nat, codeMax: nat,
                  pending: set<Loc>, slots: map<int, Slot>, cacheSize: nat)
    requires SameValidTags(a, b)
    ensures TagsOwned(a, inEwram, holder, codeMin, codeMax, pending) ==>
            TagsOwned(b, inEwram, holder, codeMin, codeMax, pending)
    ensures SlotsPresent(a, slots, cacheSize) ==> SlotsPresent(b, slots, cacheSize)
  {
  }

  /** Handing out a tag keeps every valid tag unique to its halfword. */
  lemma OwnedAfterAllocation(tags: seq<nat>, inEwram: bool, holder: map<nat, Loc>, codeMin: nat, codeMax: nat,
                             at: Loc, tag: nat)
    requires tag !in holder && (at.inEwram == inEwram ==> at.i < |tags|)
    requires TagsOwned(tags, inEwram, holder, codeMin, codeMax, {})
    ensures TagsOwned(if at.inEwram == inEwram then tags[at.i := tag] else tags, inEwram,
                      holder[tag := at], codeMin, codeMax, {at})
  {
  }

  lemma SlotsAfterAllocation(tags: seq<nat>, slots: map<int, Slot>, cacheSize: nat, tag: nat, empty: Slot,
                             at: nat)
    requires SlotsPresent(tags, slots, cacheSize) && tag < 0x10000
    ensures SlotsPresent(if at < |tags| then tags[at := tag] else tags,
                         slots[SlotAddress(cacheSize, tag) := empty], cacheSize)
  {
  }

  /** Uniqueness, spelled out: two halfwords never hold the same valid tag. */
  lemma ValidTagsAreUnique(iwram: seq<nat>, ewram: seq<nat>, holder: map<nat, Loc>,
                           min1: nat, max1: nat, min2: nat, max2: nat, a: Loc, b: Loc)
    requires TagsOwned(iwram, false, holder, min1, max1, {}) && TagsOwned(ewram, true, holder, min2, max2, {})
    requires a.i < |(if a.inEwram then ewram else iwram)| && b.i < |(if b.inEwram then ewram else iwram)|
    requires ValidTag((if a.inEwram then ewram else iwram)[a.i])
    ensures (if a.inEwram then ewram else iwram)[a.i] == (if b.inEwram then ewram else iwram)[b.i] ==> a == b
  {
  }

  /** Translating an instruction widens the bounds; once the first instruction of the pending block is
      translated, its tag lies within them like every other. */
  lemma OwnedAfterUpdate(tags: seq<nat>, inEwram: bool, holder: map<nat, Loc>, codeMin: nat, codeMax: nat,
                         codeMin': nat, codeMax': nat, pending: set<Loc>, at: Loc)
    requires codeMin' <= codeMin && codeMax' >= codeMax && codeMin' <= 2 * at.i <= codeMax'
    requires at.inEwram == inEwram
    ensures TagsOwned(tags, inEwram, holder, codeMin, codeMax, pending) ==>
            TagsOwned(tags, inEwram, holder, codeMin', codeMax', pending - {at})
  {
  }

  lemma OwnedElsewhere(tags: seq<nat>, inEwram: bool, holder: map<nat, Loc>, codeMin: nat, codeMax: nat,
                       pending: set<Loc>, at: Loc)
    requires at.inEwram != inEwram
    ensures TagsOwned(tags, inEwram, holder, codeMin, codeMax, pending) ==>
            TagsOwned(tags, inEwram, holder, codeMin, codeMax, pending - {at})
  {
  }

  /** A flush of one region, on the invariants: it is complete unless the region is in the corner. */
  lemma FlushOwned(tags: seq<nat>, inEwram: bool, holder: map<nat, Loc>, codeMin: nat, codeMax: nat,
                   slots: map<int, Slot>, cacheSize: nat)
    requires SlotsPresent(tags, slots, cacheSize)
    requires codeMin % 2 == 0 || codeMax == 0
    ensures var after := AfterFlush(tags, codeMin, codeMax);
            var corner := codeMax == 0 && |tags| > 0 && ValidTag(tags[0]);
            && SlotsPresent(after, slots, cacheSize)
            && (TagsOwned(tags, inEwram, holder, codeMin, codeMax, {}) ==> (NoValidTag(after) <==> !corner))
            && (NoValidTag(after) ==> TagsOwned(after, inEwram, map[], NO_MINIMUM, 0, {}))
  {
    if TagsOwned(tags, inEwram, holder, codeMin, codeMax, {}) {
      FlushCompleteIff(tags, codeMin, codeMax);
    }
  }

  lemma KeptAll(a: seq<nat>)
    ensures KeptTags(a, a)
  {
  }

  /** An instruction is tagged as code: a Thumb one in its halfword, an ARM one in one of its two. */
  predicate Tagged(iwram: seq<nat>, ewram: seq<nat>, l: Loc, mode: Mode) {
    var tags := if l.inEwram then ewram else iwram;
    && l.i < |tags|
    && (tags[l.i] != 0 || (mode.Arm? && l.i + 1 < |tags| && tags[l.i + 1] != 0))
  }

  /** Tags handed out are odd and lie above the next one. */
  predicate Live(tag: int, next: int) { tag % 2 == 1 && next < tag <= INITIAL_TOP_TAG }

  predicate KeptSlot(a: map<int, Slot>, b: map<int, Slot>, x: int) {
    x in a ==>
      && x in b
      && (a[x].arm != 0 ==> b[x].arm == a[x].arm)
      && (a[x].thumb != 0 ==> b[x].thumb == a[x].thumb)
  }

  /** What the block table says for the tags handed out before `next` stays. */
  ghost predicate KeptSlots(a: map<int, Slot>, b: map<int, Slot>, cacheSize: nat, next: int) {
    forall tag: nat | Live(tag, next) :: KeptSlot(a, b, SlotAddress(cacheSize, tag))
  }

  lemma TablesKeptInTurn(a: map<int, Slot>, b: map<int, Slot>, c: map<int, Slot>, cacheSize: nat, next: int,
                         next': int)
    requires KeptSlots(a, b, cacheSize, next) && KeptSlots(b, c, cacheSize, next') && next' <= next
    ensures KeptSlots(a, c, cacheSize, next)
  {
    hide SlotAddress;
    forall tag: nat | Live(tag, next)
      ensures KeptSlot(a, c, SlotAddress(cacheSize, tag))
    {
      assert KeptSlot(a, b, SlotAddress(cacheSize, tag)) && KeptSlot(b, c, SlotAddress(cacheSize, tag));
    }
  }

  lemma TagsKeptInTurn(a: seq<nat>, b: seq<nat>, c: seq<nat>)
    requires KeptTags(a, b) && KeptTags(b, c)
    ensures KeptTags(a, c)
  {
  }

  /** Opening the entry of the next tag keeps what the table says. */
  lemma OpeningKeeps(slots: map<int, Slot>, cacheSize: nat, tag: nat)
    requires tag % 2 == 1 && tag < 0x10000
    ensures KeptSlots(slots, slots[SlotAddress(cacheSize, tag) := Slot(0, 0)], cacheSize, tag)
  {
    hide SlotAddress;
    var slots' := slots[SlotAddress(cacheSize, tag) := Slot(0, 0)];
    forall other: nat | Live(other, tag)
      ensures KeptSlot(slots, slots', SlotAddress(cacheSize, other))
    {
      SlotsDiffer(cacheSize, other, tag);
    }
  }
}
