/** Loading and storing several registers at once. */
module BlockTransfer {
  import opened Word32

  datatype AddrMode = PreInc | PreDec | PostInc | PostDec

  /** Which of the sixteen registers are transferred. */
  type RegList = l: seq<bool> | |l| == 16 witness seq(16, _ => false)

  const PC := 15
  const LR := 14

  /** How many registers below `n` are listed. */
  function Count(list: RegList, n: nat): (c: nat)
    requires n <= 16
    ensures c <= n
  {
    if n == 0 then 0 else Count(list, n - 1) + (if list[n - 1] then 1 else 0)
  }

  lemma {:induction false} CountGrows(list: RegList, i: nat, j: nat)
    requires i <= j <= 16
    ensures Count(list, i) <= Count(list, j)
    ensures i < j && list[i] ==> Count(list, i) < Count(list, j)
    decreases j
  {
    if i < j {
      CountGrows(list, i, j - 1);
    }
  }

  /** The number of bits set in each byte, in rows of sixteen. */
  const BIT_COUNT: seq<seq<nat>> := [
    [0, 1, 1, 2, 1, 2, 2, 3, 1, 2, 2, 3, 2, 3, 3, 4],
    [1, 2, 2, 3, 2, 3, 3, 4, 2, 3, 3, 4, 3, 4, 4, 5],
    [1, 2, 2, 3, 2, 3, 3, 4, 2, 3, 3, 4, 3, 4, 4, 5],
    [2, 3, 3, 4, 3, 4, 4, 5, 3, 4, 4, 5, 4, 5, 5, 6],
    [1, 2, 2, 3, 2, 3, 3, 4, 2, 3, 3, 4, 3, 4, 4, 5],
    [2, 3, 3, 4, 3, 4, 4, 5, 3, 4, 4, 5, 4, 5, 5, 6],
    [2, 3, 3, 4, 3, 4, 4, 5, 3, 4, 4, 5, 4, 5, 5, 6],
    [3, 4, 4, 5, 4, 5, 5, 6, 4, 5, 5, 6, 5, 6, 6, 7],
    [1, 2, 2, 3, 2, 3, 3, 4, 2, 3, 3, 4, 3, 4, 4, 5],
    [2, 3, 3, 4, 3, 4, 4, 5, 3, 4, 4, 5, 4, 5, 5, 6],
    [2, 3, 3, 4, 3, 4, 4, 5, 3, 4, 4, 5, 4, 5, 5, 6],
    [3, 4, 4, 5, 4, 5, 5, 6, 4, 5, 5, 6, 5, 6, 6, 7],
    [2, 3, 3, 4, 3, 4, 4, 5, 3, 4, 4, 5, 4, 5, 5, 6],
    [3, 4, 4, 5, 4, 5, 5, 6, 4, 5, 5, 6, 5, 6, 6, 7],
    [3, 4, 4, 5, 4, 5, 5, 6, 4, 5, 5, 6, 5, 6, 6, 7],
    [4, 5, 5, 6, 5, 6, 6, 7, 5, 6, 6, 7, 6, 7, 7, 8]
  ]

  /** Four bits of a list, as a number. */
  function Nibble(list: RegList, at: nat): (n: nat)
    requires at <= 12
    ensures n < 16
  {
    (if list[at] then 1 else 0) + (if list[at + 1] then 2 else 0) +
    (if list[at + 2] then 4 else 0) + (if list[at + 3] then 8 else 0)
  }

  lemma RowsAreCounts(h: nat, l: nat)
    requires h < 16 && l < 16
    ensures |BIT_COUNT| == 16 && |BIT_COUNT[h]| == |BIT_COUNT[0]| == 16
    ensures BIT_COUNT[h][l] == BIT_COUNT[0][h] + BIT_COUNT[0][l]
  {
  }

  lemma FirstRowCounts(list: RegList, at: nat)
    requires at <= 12
    ensures |BIT_COUNT| == 16 && |BIT_COUNT[0]| == 16
    ensures BIT_COUNT[0][Nibble(list, at)] == Count(list, at + 4) - Count(list, at)
  {
    var one, two := if list[at] then 1 else 0, if list[at + 1] then 1 else 0;
    var three, four := if list[at + 2] then 1 else 0, if list[at + 3] then 1 else 0;
    assert Count(list, at + 1) == Count(list, at) + one;
    assert Count(list, at + 2) == Count(list, at) + one + two;
    assert Count(list, at + 3) == Count(list, at) + one + two + three;
    assert Count(list, at + 4) == Count(list, at) + one + two + three + four;
  }

  /** The entry of the table for the byte of a list at `at`. */
  function BitCount(list: RegList, at: nat): (n: nat)
    requires at <= 8
    ensures n == Count(list, at + 8) - Count(list, at)
  {
    RowsAreCounts(Nibble(list, at + 4), Nibble(list, at));
    FirstRowCounts(list, at);
    FirstRowCounts(list, at + 4);
    BIT_COUNT[Nibble(list, at + 4)][Nibble(list, at)]
  }

  function Ups(mode: AddrMode): int { if mode.PreInc? || mode.PostInc? then 4 else -4 }

  /** The base register after the transfer. */
  function EndAddress(mode: AddrMode, base: u32, n: nat): u32 { Plus(base, Ups(mode) * n) }

  /** The lowest address of the transfer. */
  function Lowest(mode: AddrMode, base: u32, n: nat): u32 {
    AlignDown(match mode
              case PreInc => Plus(base, 4)
              case PostInc => base
              case PreDec => EndAddress(mode, base, n)
              case PostDec => Plus(EndAddress(mode, base, n), 4), 4)
  }

  lemma PlusSteps(base: int, m: int, n: int)
    ensures Plus(Plus(base, m), n) == Plus(base, m + n)
    ensures Plus(Wrap(base), n) == Wrap(base + n)
  {
    WrapStep(base + m, n);
    WrapStep(base, n);
  }

  lemma WrapStep(x: int, n: int)
    ensures Wrap(Wrap(x) + n) == Wrap(x + n)
  {
    var rest := x % 0x1_0000_0000 + n;
    assert x + n == 0x1_0000_0000 * (x / 0x1_0000_0000 + rest / 0x1_0000_0000) + rest % 0x1_0000_0000;
  }

  /** Where register `i` goes: one word for each listed register below it. */
  function Address(start: u32, list: RegList, i: nat): u32
    requires i <= 16
  {
    Plus(start, 4 * Count(list, i))
  }

  // ----------------------------------------------------------------------------------------------
  // Memory and the two loops
  // ----------------------------------------------------------------------------------------------

  /** Plain RAM, by words; what has not been written reads as zero. */
  type Memory = map<u32, u32>

  function Read(m: Memory, a: u32): u32 { if a in m then m[a] else 0 }

  /** Memory after registers `i` and up have been stored. */
  function StoredFrom(m: Memory, values: seq<u32>, list: RegList, start: u32, i: nat): Memory
    requires |values| == 16 && i <= 16
    decreases 16 - i
  {
    if i == 16 then m
    else StoredFrom(if list[i] then m[Address(start, list, i) := values[i]] else m, values, list, start, i + 1)
  }

  /** The registers after registers `i` and up have been loaded. */
  function LoadedFrom(regs: seq<u32>, m: Memory, list: RegList, start: u32, i: nat): (r: seq<u32>)
    requires |regs| == 16 && i <= 16
    ensures |r| == 16
    decreases 16 - i
  {
    if i == 16 then regs
    else LoadedFrom(if list[i] then regs[i := Read(m, Address(start, list, i))] else regs, m, list, start, i + 1)
  }

  /** Different listed registers have different words, even where addresses wrap around. */
  lemma AddressesDiffer(list: RegList, start: u32, i: nat, j: nat)
    requires i < j < 16 && list[i]
    ensures Address(start, list, i) != Address(start, list, j)
  {
    CountGrows(list, i, j);
    SumsDiffer(start, 4 * Count(list, i), 4 * Count(list, j));
  }

  lemma SumsDiffer(start: u32, a: nat, b: nat)
    requires a < b <= 64
    ensures Plus(start, a) != Plus(start, b)
  {
  }

  /** After the store, each listed register from `i` up is in its word, and no other word has changed. */
  lemma {:induction false} StoredWords(m: Memory, values: seq<u32>, list: RegList, start: u32, i: nat)
    requires |values| == 16 && i <= 16
    ensures forall k | i <= k < 16 && list[k] ::
              Read(StoredFrom(m, values, list, start, i), Address(start, list, k)) == values[k]
    ensures forall a | (forall k | i <= k < 16 && list[k] :: a != Address(start, list, k)) ::
              Read(StoredFrom(m, values, list, start, i), a) == Read(m, a)
    decreases 16 - i
  {
    hide Address;
    if i < 16 {
      var next := if list[i] then m[Address(start, list, i) := values[i]] else m;
      StoredWords(next, values, list, start, i + 1);
      if list[i] {
        forall k | i < k < 16 && list[k]
          ensures Address(start, list, i) != Address(start, list, k)
        {
          AddressesDiffer(list, start, i, k);
        }
      }
    }
  }

  /** After the load, each listed register from `i` up holds its word, and no other has changed. */
  lemma {:induction false} LoadedWords(regs: seq<u32>, m: Memory, list: RegList, start: u32, i: nat)
    requires |regs| == 16 && i <= 16
    ensures forall k | 0 <= k < 16 :: LoadedFrom(regs, m, list, start, i)[k] ==
              if i <= k && list[k] then Read(m, Address(start, list, k)) else regs[k]
    decreases 16 - i
  {
    hide Address;
    if i < 16 {
      LoadedWords(if list[i] then regs[i := Read(m, Address(start, list, i))] else regs, m, list, start, i + 1);
    }
  }

  // ----------------------------------------------------------------------------------------------
  // The instructions
  // ----------------------------------------------------------------------------------------------

  /** Registers and memory. */
  datatype State = State(regs: seq<u32>, memory: Memory) {
    ghost predicate Fits() { |regs| == 16 }
  }

  /** Whether no register below `rn` is listed. */
  predicate IsFirst(rn: nat, list: RegList)
    requires rn < 16
  {
    list[rn] && Count(list, rn) == 0
  }

  /** The values a store writes: the base register, if listed, is written as it was when it is the first
      one and as updated otherwise; the program counter is written two instructions ahead. */
  function StoreValues(regs: seq<u32>, rn: nat, list: RegList, end: u32, writeback: bool, width: nat): (v: seq<u32>)
    requires |regs| == 16 && rn < 16
    ensures |v| == 16
  {
    var r := if writeback && !IsFirst(rn, list) then regs[rn := end] else regs;
    r[PC := Plus(r[PC], 2 * width)]
  }

  /** STM, with instructions of `width` bytes. */
  function Store(s: State, rn: nat, list: RegList, mode: AddrMode, writeback: bool, width: nat): (r: State)
    requires s.Fits() && rn < 16
    ensures r.Fits()
  {
    StoreAt(s, s.regs[rn], rn, list, mode, writeback, width)
  }

  /** STM with a base address that was read before. */
  function StoreAt(s: State, base: u32, rn: nat, list: RegList, mode: AddrMode, writeback: bool, width: nat): (r: State)
    requires s.Fits() && rn < 16
    ensures r.Fits()
  {
    var n := Count(list, 16);
    var end := EndAddress(mode, base, n);
    var first := writeback && !IsFirst(rn, list);
    var r := if first then s.regs[rn := end] else s.regs;
    var stepped := r[PC := Plus(r[PC], width)];
    State(if writeback && !first then stepped[rn := end] else stepped,
          StoredFrom(s.memory, StoreValues(s.regs, rn, list, end, writeback, width), list,
                     Lowest(mode, base, n), 0))
  }

  /** LDM. */
  function Load(s: State, rn: nat, list: RegList, mode: AddrMode, writeback: bool, width: nat): (r: State)
    requires s.Fits() && rn < 16
    ensures r.Fits()
  {
    LoadAt(s, s.regs[rn], rn, list, mode, writeback, width)
  }

  /** LDM with a base address that was read before. */
  function LoadAt(s: State, base: u32, rn: nat, list: RegList, mode: AddrMode, writeback: bool, width: nat): (r: State)
    requires s.Fits() && rn < 16
    ensures r.Fits()
  {
    var n := Count(list, 16);
    var r := if writeback then s.regs[rn := EndAddress(mode, base, n)] else s.regs;
    State(LoadedFrom(r[PC := Plus(r[PC], width)], s.memory, list, Lowest(mode, base, n), 0), s.memory)
  }

  // ----------------------------------------------------------------------------------------------
  // Where the words are
  // ----------------------------------------------------------------------------------------------

  /** Which words a transfer of `n` registers reaches, by their distance from the base: those from the base up or
      below it, with or without the word at the base itself. */
  predicate Reaches(mode: AddrMode, n: nat, distance: int) {
    distance % 4 == 0 &&
    match mode
    case PostInc => 0 <= distance < 4 * n
    case PreInc => 0 < distance <= 4 * n
    case PreDec => -4 * n <= distance < 0
    case PostDec => -4 * n < distance <= 0
  }

  /** The `c`-th of them, upwards. */
  function Distance(mode: AddrMode, n: nat, c: nat): int {
    4 * c + match mode
            case PostInc => 0
            case PreInc => 4
            case PreDec => -4 * n
            case PostDec => 4 - 4 * n
  }

  lemma DistancesReach(mode: AddrMode, n: nat, distance: int)
    ensures Reaches(mode, n, distance) <==> exists c: nat :: c < n && distance == Distance(mode, n, c)
  {
    if Reaches(mode, n, distance) {
      var c := (distance - Distance(mode, n, 0)) / 4;
      assert distance == Distance(mode, n, c);
    }
  }

  /** The base after a transfer with write-back. */
  function Beyond(mode: AddrMode, base: u32, n: nat): u32 {
    Wrap(if mode.PreInc? || mode.PostInc? then base + 4 * n else base - 4 * n)
  }

  lemma EndIsBeyond(mode: AddrMode, base: u32, n: nat)
    ensures EndAddress(mode, base, n) == Beyond(mode, base, n)
  {
    hide Wrap;
  }

  /** The word at a distance from the base, which is rounded down to a word. */
  function At(base: u32, distance: int): u32 { Wrap(base - base % 4 + distance) }

  /** Where register `i` goes: listed registers go upwards in order. */
  function WordOf(list: RegList, mode: AddrMode, base: u32, i: nat): u32
    requires i <= 16
  {
    At(base, Distance(mode, Count(list, 16), Count(list, i)))
  }

  lemma WrapsTo(x: int, y: u32)
    requires x == y || x == y - WORD || x == y + WORD
    ensures Wrap(x) == y
  {
  }

  lemma SameByte(x: int, k: int)
    ensures (x + 4 * k) % 4 == x % 4
  {
  }

  lemma AlignedStep(base: u32, k: int)
    requires -32 <= k <= 32
    ensures AlignDown(Plus(base, 4 * k), 4) == Wrap(base - base % 4 + 4 * k)
  {
    hide Wrap;
    var x := base + 4 * k;
    var y := if x < 0 then x + WORD else if x < WORD then x else x - WORD;
    WrapsTo(x, y);
    SameByte(base, if x < 0 then k + WORD / 4 else if x < WORD then k else k - WORD / 4);
    WrapsTo(x - base % 4, y - base % 4);
  }

  /** The code's addresses are those words. */
  lemma AddressIsWord(list: RegList, mode: AddrMode, base: u32, i: nat)
    requires i <= 16
    ensures Address(Lowest(mode, base, Count(list, 16)), list, i) == WordOf(list, mode, base, i)
  {
    hide AlignDown, Plus, Wrap, Count;
    var n: int, c: int := Count(list, 16), Count(list, i);
    PlusSteps(base, -4 * n, 4);
    AlignedStep(base, 0);
    AlignedStep(base, 1);
    AlignedStep(base, -n);
    AlignedStep(base, 1 - n);
    PlusSteps(base, 0, 0);
    PlusSteps(base - base % 4 + Distance(mode, n, 0), 0, 4 * c);
    PlainSum(base);
  }

  lemma AddressesAreWords(list: RegList, mode: AddrMode, base: u32)
    ensures var start := Lowest(mode, base, Count(list, 16));
            forall i | 0 <= i <= 16 :: Address(start, list, i) == WordOf(list, mode, base, i)
  {
    hide *;
    forall i | 0 <= i <= 16
      ensures Address(Lowest(mode, base, Count(list, 16)), list, i) == WordOf(list, mode, base, i)
    {
      AddressIsWord(list, mode, base, i);
    }
  }

  lemma PlainSum(base: u32)
    ensures Plus(base, 0) == base
  {
  }

  lemma {:induction false} EachCounts(list: RegList, n: nat, c: nat)
    requires n <= 16 && c < Count(list, n)
    ensures exists i | 0 <= i < n :: list[i] && Count(list, i) == c
  {
    if c < Count(list, n - 1) {
      EachCounts(list, n - 1, c);
    }
  }

  /** Every listed register goes to a word that the transfer reaches, */
  lemma WordIsReached(list: RegList, mode: AddrMode, base: u32, i: nat)
    requires i < 16 && list[i]
    ensures exists distance ::
              Reaches(mode, Count(list, 16), distance) && WordOf(list, mode, base, i) == At(base, distance)
  {
    hide Reaches, Distance, Wrap;
    var n, c := Count(list, 16), Count(list, i);
    CountGrows(list, i, 16);
    DistancesReach(mode, n, Distance(mode, n, c));
    assert WordOf(list, mode, base, i) == At(base, Distance(mode, n, c));
  }

  /** and every such word belongs to one. */
  lemma WordIsFilled(list: RegList, mode: AddrMode, base: u32, distance: int)
    requires Reaches(mode, Count(list, 16), distance)
    ensures exists i | 0 <= i < 16 :: list[i] && WordOf(list, mode, base, i) == At(base, distance)
  {
    hide Reaches, Distance, Wrap;
    DistancesReach(mode, Count(list, 16), distance);
    var c: nat :| c < Count(list, 16) && distance == Distance(mode, Count(list, 16), c);
    EachCounts(list, 16, c);
    var i :| 0 <= i < 16 && list[i] && Count(list, i) == c;
    assert WordOf(list, mode, base, i) == At(base, distance);
  }

  lemma ValuesStored(regs: seq<u32>, rn: nat, list: RegList, end: u32, writeback: bool, width: nat)
    requires |regs| == 16 && rn < 16
    ensures forall i | 0 <= i < 16 && i != rn :: StoreValues(regs, rn, list, end, writeback, width)[i]
                                                 == if i == PC then Plus(regs[PC], 2 * width) else regs[i]
  {
    hide Wrap, IsFirst;
  }

  /** A store changes no word that it does not reach, and puts each listed register into its word. */
  lemma StoreReaches(s: State, rn: nat, list: RegList, mode: AddrMode, writeback: bool, width: nat, a: u32)
    requires s.Fits() && rn < 16
    ensures var n, base := Count(list, 16), s.regs[rn];
            var t := Store(s, rn, list, mode, writeback, width);
            && (Read(t.memory, a) != Read(s.memory, a) ==>
                  exists distance :: Reaches(mode, n, distance) && a == At(base, distance))
            && (forall i | 0 <= i < 16 && i != rn && list[i] ::
                  Read(t.memory, WordOf(list, mode, base, i))
                  == if i == PC then Plus(s.regs[PC], 2 * width) else s.regs[i])
            && (writeback && rn != PC ==> t.regs[rn] == Beyond(mode, base, n))
  {
    hide Address, Lowest, StoredFrom, Reaches, WordOf, At, Count, StoreValues, IsFirst, EndAddress, Beyond, Wrap;
    var n, base := Count(list, 16), s.regs[rn];
    var start, end := Lowest(mode, base, n), EndAddress(mode, base, n);
    StoredWords(s.memory, StoreValues(s.regs, rn, list, end, writeback, width), list, start, 0);
    ValuesStored(s.regs, rn, list, end, writeback, width);
    EndIsBeyond(mode, base, n);
    AddressesAreWords(list, mode, base);
    if Read(Store(s, rn, list, mode, writeback, width).memory, a) != Read(s.memory, a) {
      var i :| 0 <= i < 16 && list[i] && a == Address(start, list, i);
      WordIsReached(list, mode, base, i);
    }
  }

  /** A load takes each listed register from the same word, and writes no other but the base. */
  lemma LoadReaches(s: State, rn: nat, list: RegList, mode: AddrMode, writeback: bool, width: nat)
    requires s.Fits() && rn < 16
    ensures var t := Load(s, rn, list, mode, writeback, width);
            && (forall i | 0 <= i < PC || (i == PC && list[PC]) :: t.regs[i] ==
                  if list[i] then Read(s.memory, WordOf(list, mode, s.regs[rn], i))
                  else if i == rn && writeback then Beyond(mode, s.regs[rn], Count(list, 16)) else s.regs[i])
            && t.memory == s.memory
  {
    hide Address, Lowest, LoadedFrom, WordOf;
    var n, base := Count(list, 16), s.regs[rn];
    var r := if writeback then s.regs[rn := EndAddress(mode, base, n)] else s.regs;
    LoadedWords(r[PC := Plus(r[PC], width)], s.memory, list, Lowest(mode, base, n), 0);
    AddressesAreWords(list, mode, base);
    EndIsBeyond(mode, base, n);
  }

  /** The way of loading that undoes a way of storing. */
  function Opposite(mode: AddrMode): AddrMode {
    match mode
    case PreInc => PostDec
    case PreDec => PostInc
    case PostInc => PreDec
    case PostDec => PreInc
  }

  lemma BackAgain(base: u32, distance: int)
    requires -64 <= distance <= 64
    ensures Plus(Plus(base, distance), -distance) == base
  {
  }

  lemma SameWords(mode: AddrMode, base: u32, n: nat)
    requires n <= 16
    ensures Lowest(Opposite(mode), EndAddress(mode, base, n), n) == Lowest(mode, base, n)
    ensures EndAddress(Opposite(mode), EndAddress(mode, base, n), n) == base
  {
    hide AlignDown, Plus;
    BackAgain(base, Ups(mode) * n);
  }

  /** For all four ways of storing with write-back, and even a misaligned base, loading the opposite way
      brings back every listed register and the base, whatever has happened to the others in between. */
  lemma LoadUndoesStore(s: State, t: State, rn: nat, list: RegList, mode: AddrMode, width: nat)
    requires s.Fits() && t.Fits() && rn < PC && !list[rn] && !list[PC]
    requires t.memory == Store(s, rn, list, mode, true, width).memory
    requires t.regs[rn] == Store(s, rn, list, mode, true, width).regs[rn]
    ensures var r := Load(t, rn, list, Opposite(mode), true, width).regs;
            r[rn] == s.regs[rn] && forall i | 0 <= i < 16 && list[i] :: r[i] == s.regs[i]
  {
    hide Lowest, EndAddress, StoredFrom, LoadedFrom, Address;
    var n := Count(list, 16);
    var end := EndAddress(mode, s.regs[rn], n);
    var start := Lowest(mode, s.regs[rn], n);
    SameWords(mode, s.regs[rn], n);
    StoredWords(s.memory, StoreValues(s.regs, rn, list, end, true, width), list, start, 0);
    var r := t.regs[rn := s.regs[rn]];
    LoadedWords(r[PC := Plus(r[PC], width)], t.memory, list, start, 0);
  }

  /** A base register in its own list is stored as it was if it is the first, as updated otherwise. */
  lemma BaseStored(s: State, rn: nat, list: RegList, mode: AddrMode, width: nat)
    requires s.Fits() && rn < PC && list[rn]
    ensures var n := Count(list, 16);
            var t := Store(s, rn, list, mode, true, width);
            && t.regs[rn] == Beyond(mode, s.regs[rn], n)
            && Read(t.memory, WordOf(list, mode, s.regs[rn], rn))
               == if forall k | 0 <= k < rn :: !list[k] then s.regs[rn] else t.regs[rn]
  {
    hide Lowest, EndAddress, StoredFrom, Address;
    var n := Count(list, 16);
    var end := EndAddress(mode, s.regs[rn], n);
    StoredWords(s.memory, StoreValues(s.regs, rn, list, end, true, width), list, Lowest(mode, s.regs[rn], n), 0);
    NoneBelow(list, rn);
    AddressIsWord(list, mode, s.regs[rn], rn);
    EndIsBeyond(mode, s.regs[rn], n);
  }

  lemma {:induction false} NoneBelow(list: RegList, n: nat)
    requires n <= 16
    ensures Count(list, n) == 0 <==> forall k | 0 <= k < n :: !list[k]
  {
    if n > 0 {
      NoneBelow(list, n - 1);
    }
  }

  // ----------------------------------------------------------------------------------------------
  // Thumb
  // ----------------------------------------------------------------------------------------------

  /** The list of a Thumb instruction: the low eight registers, and at most one more (none if it is 16). */
  function ThumbList(low: seq<bool>, extra: nat): RegList
    requires |low| == 8
  {
    seq(16, i requires 0 <= i < 16 => if i < 8 then low[i] else i == extra)
  }

  /** LDM in Thumb code: a program counter popped loses its lowest bit. */
  function LoadThumb(s: State, rn: nat, list: RegList, mode: AddrMode): (r: State)
    requires s.Fits() && rn < 16
    ensures r.Fits()
  {
    var t := Load(s, rn, list, mode, true, 2);
    if list[PC] then t.(regs := t.regs[PC := AlignDown(t.regs[PC], 2)]) else t
  }

  lemma {:induction false} ThumbCounts(low: seq<bool>, extra: nat, n: nat)
    requires |low| == 8 && n <= 16
    requires 8 <= extra
    ensures n <= 8 ==> Count(ThumbList(low, extra), n) == Count(ThumbList(low, 16), n)
    ensures n > 8 ==> Count(ThumbList(low, extra), n) ==
                      Count(ThumbList(low, 16), 8) + if extra < n then 1 else 0
  {
    if n > 0 {
      ThumbCounts(low, extra, n - 1);
    }
  }

  /** PUSH {list, lr}, any code that keeps the stack, and POP {list, pc} return to the address in the link
      register, with its lowest bit clear; the listed registers and the stack pointer are back. */
  lemma PopUndoesPush(s: State, t: State, low: seq<bool>)
    requires s.Fits() && t.Fits() && |low| == 8
    requires t.memory == Store(s, 13, ThumbList(low, LR), PreDec, true, 2).memory
    requires t.regs[13] == Store(s, 13, ThumbList(low, LR), PreDec, true, 2).regs[13]
    ensures var r := LoadThumb(t, 13, ThumbList(low, PC), PostInc).regs;
            && r[PC] == AlignDown(s.regs[LR], 2) && r[13] == s.regs[13]
            && forall i | 0 <= i < 8 && low[i] :: r[i] == s.regs[i]
  {
    hide Lowest, EndAddress, StoredFrom, LoadedFrom;
    var pushed, popped := ThumbList(low, LR), ThumbList(low, PC);
    var n := Count(pushed, 16);
    forall i | 0 <= i <= 16
      ensures i <= 8 ==> Count(pushed, i) == Count(popped, i)
    {
      ThumbCounts(low, LR, i);
      ThumbCounts(low, PC, i);
    }
    ThumbCounts(low, LR, LR);
    ThumbCounts(low, PC, PC);
    ThumbCounts(low, LR, 16);
    ThumbCounts(low, PC, 16);
    var end := EndAddress(PreDec, s.regs[13], n);
    var start := Lowest(PreDec, s.regs[13], n);
    SameWords(PreDec, s.regs[13], n);
    StoredWords(s.memory, StoreValues(s.regs, 13, pushed, end, true, 2), pushed, start, 0);
    var r := t.regs[13 := s.regs[13]];
    LoadedWords(r[PC := Plus(r[PC], 2)], t.memory, popped, start, 0);
    assert pushed[LR] && popped[PC];
    forall i | 0 <= i < 8 && low[i]
      ensures LoadedFrom(r[PC := Plus(r[PC], 2)], t.memory, popped, start, 0)[i] == s.regs[i]
    {
      assert pushed[i] && popped[i] && Address(start, pushed, i) == Address(start, popped, i);
    }
  }

  // ----------------------------------------------------------------------------------------------
  // The processor
  // ----------------------------------------------------------------------------------------------

  class Cpu {
    const reg: array<u32>
    var memory: Memory

    constructor (reg: array<u32>, memory: Memory)
      ensures this.reg == reg && this.memory == memory
    {
      this.reg, this.memory := reg, memory;
    }

    ghost function Now(): (s: State)
      requires reg.Length == 16
      reads this, reg
      ensures s.Fits()
    {
      State(reg[..], memory)
    }

    /** Stores listed registers one after the other, counting the address up. */
    method StoreWords(list: RegList, start: u32, from: nat, to: nat, ahead: nat) returns (address: u32)
      requires reg.Length == 16 && from <= to <= 16
      modifies `memory
      ensures var values := reg[..][PC := Plus(reg[PC], ahead)];
              StoredFrom(memory, values, list, start, to) == StoredFrom(old(memory), values, list, start, from)
      ensures address == Address(start, list, to)
    {
      hide Wrap;
      ghost var values := reg[..][PC := Plus(reg[PC], ahead)];
      address := Plus(start, 4 * Count(list, from));
      for i := from to to
        invariant address == Address(start, list, i)
        invariant StoredFrom(memory, values, list, start, i) == StoredFrom(old(memory), values, list, start, from)
      {
        NextAddress(start, list, i);
        if list[i] {
          memory := memory[address := if i == PC then Plus(reg[PC], ahead) else reg[i]];
          address := Plus(address, 4);
        }
      }
    }

    /** Loads listed registers one after the other. */
    method LoadWords(list: RegList, start: u32, from: nat, to: nat) returns (address: u32)
      requires reg.Length == 16 && from <= to <= 16
      modifies reg
      ensures LoadedFrom(reg[..], memory, list, start, to) == LoadedFrom(old(reg[..]), memory, list, start, from)
      ensures address == Address(start, list, to)
    {
      hide Wrap;
      address := Plus(start, 4 * Count(list, from));
      for i := from to to
        invariant address == Address(start, list, i)
        invariant LoadedFrom(reg[..], memory, list, start, i) == LoadedFrom(old(reg[..]), memory, list, start, from)
      {
        NextAddress(start, list, i);
        if list[i] {
          reg[i] := Read(memory, address);
          address := Plus(address, 4);
        }
      }
    }

    /** The ARM instructions. */
    method ExecArm(load: bool, rn: nat, list: RegList, mode: AddrMode, writeback: bool)
      requires reg.Length == 16 && rn < 16
      modifies this, reg
      ensures Now() == if load then Load(old(Now()), rn, list, mode, writeback, 4)
                       else Store(old(Now()), rn, list, mode, writeback, 4)
    {
      hide StoreAt, LoadAt;
      ExecArmAt(load, reg[rn], rn, list, mode, writeback);
    }

    /** The ARM instructions after the base address has been read. */
    method ExecArmAt(load: bool, base: u32, rn: nat, list: RegList, mode: AddrMode, writeback: bool)
      requires reg.Length == 16 && rn < 16
      modifies this, reg
      ensures Now() == if load then LoadAt(old(Now()), base, rn, list, mode, writeback, 4)
                       else StoreAt(old(Now()), base, rn, list, mode, writeback, 4)
    {
      hide Wrap, Lowest, EndAddress, BitCount, Nibble;
      var numops := BitCount(list, 8) + BitCount(list, 0);
      var end, start := EndAddress(mode, base, numops), Lowest(mode, base, numops);
      var first := load || !IsFirst(rn, list);
      if writeback && first {
        reg[rn] := end;
      }
      reg[PC] := Plus(reg[PC], 4);
      if load {
        var _ := LoadWords(list, start, 0, 16);
      } else {
        assert reg[..][PC := Plus(reg[PC], 4)] == StoreValues(old(reg[..]), rn, list, end, writeback, 4) by {
          PlusSteps(if writeback && first && rn == PC then end else old(reg[PC]), 4, 4);
        }
        var _ := StoreWords(list, start, 0, 16, 4);
      }
      if writeback && !first {
        reg[rn] := end;
      }
    }

    method LoadLowAndPc(list: RegList, start: u32)
      requires reg.Length == 16 && NoneListed(list, 8, 15)
      modifies reg
      ensures var r := LoadedFrom(old(reg[..]), memory, list, start, 0);
              reg[..] == if list[PC] then r[PC := AlignDown(r[PC], 2)] else r
    {
      hide Wrap, Address, AlignDown;
      var address := LoadWords(list, start, 0, 8);
      ghost var low := reg[..];
      Skips(memory, low, list, start, 8, 15);
      SameAddress(list, start, 8, 15);
      ghost var r := LoadedFrom(low, memory, list, start, 15);
      assert r == if list[PC] then low[PC := Read(memory, Address(start, list, 15))] else low;
      if list[PC] {
        reg[PC] := AlignDown(Read(memory, address), 2);
      }
    }

    method StoreLowAndLr(list: RegList, start: u32)
      requires reg.Length == 16 && NoneListed(list, 8, 14) && NoneListed(list, 15, 16)
      modifies `memory
      ensures var values := reg[..][PC := Plus(reg[PC], 2)];
              memory == StoredFrom(old(memory), values, list, start, 0)
    {
      hide Wrap, Address;
      ghost var values := reg[..][PC := Plus(reg[PC], 2)];
      var address := StoreWords(list, start, 0, 8, 2);
      Skips(memory, values, list, start, 8, 14);
      SameAddress(list, start, 8, 14);
      ghost var low := memory;
      if list[LR] {
        memory := memory[address := reg[LR]];
      }
      assert StoredFrom(low, values, list, start, 14) == StoredFrom(memory, values, list, start, 15);
      Skips(memory, values, list, start, 15, 16);
    }

    /** The Thumb instructions: the low eight registers, then the link register or program counter. */
    method ExecThumb(load: bool, rn: nat, low: seq<bool>, extra: nat, mode: AddrMode)
      requires reg.Length == 16 && rn < PC && |low| == 8
      requires extra == 16 || extra == (if load then PC else LR)
      modifies this, reg
      ensures Now() == if load then LoadThumb(old(Now()), rn, ThumbList(low, extra), mode)
                       else Store(old(Now()), rn, ThumbList(low, extra), mode, true, 2)
    {
      hide Wrap, Lowest, EndAddress, ThumbList, Count, AlignDown, StoredFrom, LoadedFrom, BitCount, Nibble;
      var list := ThumbList(low, extra);
      var base, numops := reg[rn], BitCount(list, 0) + (if BitCount(list, 8) > 0 then 1 else 0);
      ThumbListed(low, extra);
      var end, start := EndAddress(mode, base, numops), Lowest(mode, base, numops);
      var first := load || !IsFirst(rn, list);
      if first {
        reg[rn] := end;
      }
      reg[PC] := Plus(reg[PC], 2);
      if load {
        LoadLowAndPc(list, start);
      } else {
        ghost var values := reg[..][PC := Plus(reg[PC], 2)];
        assert values == StoreValues(old(reg[..]), rn, list, end, true, 2) by {
          PlusSteps(old(reg[PC]), 2, 2);
        }
        StoreLowAndLr(list, start);
      }
      if !first {
        reg[rn] := end;
      }
    }
  }

  ghost predicate NoneListed(list: RegList, i: nat, j: nat)
    requires i <= j <= 16
  {
    forall k | i <= k < j :: !list[k]
  }

  /** Registers not listed are skipped. */
  lemma {:induction false} Skips(m: Memory, regs: seq<u32>, list: RegList, start: u32, i: nat, j: nat)
    requires |regs| == 16 && i <= j <= 16 && NoneListed(list, i, j)
    ensures Count(list, i) == Count(list, j)
    ensures StoredFrom(m, regs, list, start, i) == StoredFrom(m, regs, list, start, j)
    ensures LoadedFrom(regs, m, list, start, i) == LoadedFrom(regs, m, list, start, j)
    decreases j - i
  {
    if i < j {
      Skips(m, regs, list, start, i + 1, j);
    }
  }

  lemma ThumbListed(low: seq<bool>, extra: nat)
    requires |low| == 8 && (extra == LR || extra == PC || extra == 16)
    ensures var list := ThumbList(low, extra);
            && Count(list, 16) == Count(list, 8) + (if extra < 16 then 1 else 0)
            && NoneListed(list, 8, 14)
            && (extra != PC ==> NoneListed(list, 15, 16))
            && (extra != LR ==> NoneListed(list, 8, 15))
  {
    ThumbCounts(low, extra, 8);
    ThumbCounts(low, extra, 16);
  }

  lemma SameAddress(list: RegList, start: u32, i: nat, j: nat)
    requires i <= j <= 16 && Count(list, i) == Count(list, j)
    ensures Address(start, list, i) == Address(start, list, j)
  {
  }

  lemma NextAddress(start: u32, list: RegList, i: nat)
    requires i < 16
    ensures Address(start, list, i + 1) == if list[i] then Plus(Address(start, list, i), 4) else Address(start, list, i)
  {
    hide Wrap;
    PlusSteps(start, 4 * Count(list, i), 4);
  }
}
