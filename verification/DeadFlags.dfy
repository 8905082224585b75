/** Dead-flag elimination: the backward liveness pass that the Thumb translator runs over the flag
    words of a scanned block, and the proof that generating only the flags it keeps preserves the
    meaning of the block, for any control flow inside the block. */
module DeadFlags {

  /** The four condition flags: their values, or a set of them. */
  datatype Flags = Flags(n: bool, z: bool, c: bool, v: bool) {
    function And(o: Flags): Flags { Flags(n && o.n, z && o.z, c && o.c, v && o.v) }

    function Or(o: Flags): Flags { Flags(n || o.n, z || o.z, c || o.c, v || o.v) }

    function Minus(o: Flags): Flags { Flags(n && !o.n, z && !o.z, c && !o.c, v && !o.v) }

    predicate SubsetOf(o: Flags) { (n ==> o.n) && (z ==> o.z) && (c ==> o.c) && (v ==> o.v) }

    function Get(f: Flag): bool {
      match f
      case N => n
      case Z => z
      case C => c
      case V => v
    }
  }

  datatype Flag = N | Z | C | V

  const NONE := Flags(false, false, false, false)
  const ALL := Flags(true, true, true, true)

  /** A flag word holds three 4-bit sets: bits 0-3 are the flags the instruction may modify, bits 4-7
      those it always modifies, bits 8-11 those it needs. */
  datatype FlagWord = FlagWord(may: Flags, must: Flags, needs: Flags)

  function Unpack(w: bv16): FlagWord {
    FlagWord(Flags(w & 0x8 != 0, w & 0x4 != 0, w & 0x2 != 0, w & 0x1 != 0),
             Flags(w & 0x80 != 0, w & 0x40 != 0, w & 0x20 != 0, w & 0x10 != 0),
             Flags(w & 0x800 != 0, w & 0x400 != 0, w & 0x200 != 0, w & 0x100 != 0))
  }

  function UnpackAll(ws: seq<bv16>): (words: seq<FlagWord>)
    ensures |words| == |ws|
  {
    seq(|ws|, i requires 0 <= i < |ws| => Unpack(ws[i]))
  }

  // ----------------------------------------------------------------------------------------------
  // The pass
  // ----------------------------------------------------------------------------------------------

  /** The flags that are live on entry to instruction `i`, when the pass covers the first `count`
      instructions: everything is live at the end of the covered part. */
  function LiveAt(words: seq<FlagWord>, count: nat, i: nat): Flags
    requires count <= |words|
    decreases count - i
  {
    if i >= count then ALL
    else LiveAt(words, count, i + 1).Minus(words[i].must).Or(words[i].needs)
  }

  /** The flags that instruction `i` still generates after the pass. */
  function Kept(words: seq<FlagWord>, count: nat, i: nat): Flags
    requires count <= |words| && i < |words|
  {
    words[i].may.And(LiveAt(words, count, i + 1))
  }

  /** The mask of needed flags above an instruction, from the one below it. */
  function NextMask(needed: bv16, w: bv16): bv16 {
    (needed & !((w >> 4) & 0xF)) | (w >> 8)
  }

  /** The mask of needed flags on entry to instruction `i`, over the words themselves. */
  function MaskAt(ws: seq<bv16>, count: nat, i: nat): bv16
    requires count <= |ws|
    decreases count - i
  {
    if i >= count then 0xFF else NextMask(MaskAt(ws, count, i + 1), ws[i])
  }

  lemma MaskStep(needed: bv16, w: bv16)
    requires needed & 0xFFF0 == 0xF0 && w & 0xF000 == 0
    ensures Unpack(w & needed) == FlagWord(Unpack(w).may.And(Unpack(needed).may), Unpack(w).must, NONE)
    ensures Unpack(NextMask(needed, w)).may == Unpack(needed).may.Minus(Unpack(w).must).Or(Unpack(w).needs)
    ensures NextMask(needed, w) & 0xFFF0 == 0xF0
  {
  }

  lemma FullMask()
    ensures Unpack(0xFF).may == ALL && (0xFF as bv16) & 0xFFF0 == 0xF0
  {
  }

  /** The low four bits of the mask are the flags that are live. */
  lemma {:induction false} MaskIsLive(ws: seq<bv16>, count: nat, i: nat)
    requires i <= count <= |ws| && forall k | 0 <= k < count :: ws[k] & 0xF000 == 0
    ensures Unpack(MaskAt(ws, count, i)).may == LiveAt(UnpackAll(ws), count, i)
    ensures MaskAt(ws, count, i) & 0xFFF0 == 0xF0
    decreases count - i
  {
    hide Unpack, NextMask;
    FullMask();
    if i < count {
      MaskIsLive(ws, count, i + 1);
      MaskStep(MaskAt(ws, count, i + 1), ws[i]);
    }
  }

  lemma MaskedIsKept(ws: seq<bv16>, count: nat, i: nat)
    requires i < count <= |ws| && forall k | 0 <= k < count :: ws[k] & 0xF000 == 0
    ensures var words := UnpackAll(ws);
            Unpack(ws[i] & MaskAt(ws, count, i + 1)) == FlagWord(Kept(words, count, i), words[i].must, NONE)
  {
    hide Unpack, NextMask, MaskAt;
    MaskIsLive(ws, count, i + 1);
    MaskStep(MaskAt(ws, count, i + 1), ws[i]);
  }

  /** The pass itself, in place; `count` is the number of instructions the scanner counted. What is
      left in the low nibble of each word is the set of flags to generate, and the needs are gone. */
  method Eliminate(flagData: array<bv16>, count: nat)
    requires count <= flagData.Length
    requires forall i | 0 <= i < count :: flagData[i] & 0xF000 == 0
    modifies flagData
    ensures var words := UnpackAll(old(flagData[..]));
            forall i | 0 <= i < count ::
              Unpack(flagData[i]) == FlagWord(Kept(words, count, i), words[i].must, NONE)
    ensures forall i | count <= i < flagData.Length :: flagData[i] == old(flagData[i])
  {
    hide Unpack, UnpackAll, Kept;
    ghost var ws := flagData[..];
    Sweep(flagData, count);
    forall i | 0 <= i < count
      ensures Unpack(flagData[i]) == FlagWord(Kept(UnpackAll(ws), count, i), UnpackAll(ws)[i].must, NONE)
    {
      MaskedIsKept(ws, count, i);
    }
  }

  /** The loop of the pass, word by word from the last instruction up. */
  method Sweep(flagData: array<bv16>, count: nat)
    requires count <= flagData.Length
    modifies flagData
    ensures forall i | 0 <= i < count :: flagData[i] == old(flagData[i]) & MaskAt(old(flagData[..]), count, i + 1)
    ensures forall i | count <= i < flagData.Length :: flagData[i] == old(flagData[i])
  {
    hide NextMask;
    ghost var ws := flagData[..];
    var neededMask: bv16 := 0xFF;
    var position := count;
    while position > 0
      invariant 0 <= position <= count && neededMask == MaskAt(ws, count, position)
      invariant forall i | 0 <= i < flagData.Length ::
                  flagData[i] == if position <= i < count then ws[i] & MaskAt(ws, count, i + 1) else ws[i]
    {
      position := position - 1;
      var flagStatus := flagData[position];
      flagData[position] := flagStatus & neededMask;
      neededMask := Above(neededMask, flagStatus);
    }
  }

  method Above(needed: bv16, w: bv16) returns (r: bv16)
    ensures r == NextMask(needed, w)
  {
    r := needed & !((w >> 4) & 0xF);
    r := r | (w >> 8);
  }

  // ----------------------------------------------------------------------------------------------
  // What the pass keeps, without recursion: a flag is kept exactly when it may be modified here and
  // a later use, or the end of the covered part, is reached with no certain overwrite in between.
  // ----------------------------------------------------------------------------------------------

  ghost predicate UseReached(words: seq<FlagWord>, count: nat, f: Flag, i: nat, j: nat)
    requires count <= |words|
  {
    && i <= j <= count
    && (j == count || words[j].needs.Get(f))
    && forall k | i <= k < j :: !words[k].must.Get(f)
  }

  ghost predicate Used(words: seq<FlagWord>, count: nat, f: Flag, i: nat)
    requires count <= |words|
  {
    exists j: nat :: UseReached(words, count, f, i, j)
  }

  lemma {:induction false} LiveIffUsed(words: seq<FlagWord>, count: nat, f: Flag, i: nat)
    requires i <= count <= |words|
    ensures LiveAt(words, count, i).Get(f) <==> Used(words, count, f, i)
    decreases count - i
  {
    if i == count {
      assert UseReached(words, count, f, i, count);
    } else {
      LiveIffUsed(words, count, f, i + 1);
      if words[i].needs.Get(f) {
        assert UseReached(words, count, f, i, i);
      }
      if Used(words, count, f, i + 1) && !words[i].must.Get(f) {
        var j: nat :| UseReached(words, count, f, i + 1, j);
        assert UseReached(words, count, f, i, j);
      }
      if Used(words, count, f, i) {
        var j: nat :| UseReached(words, count, f, i, j);
        assert j == i || UseReached(words, count, f, i + 1, j);
      }
    }
  }

  lemma KeptIffUsed(words: seq<FlagWord>, count: nat, f: Flag, i: nat)
    requires i < count <= |words|
    ensures Kept(words, count, i).Get(f) <==> words[i].may.Get(f) && Used(words, count, f, i + 1)
  {
    LiveIffUsed(words, count, f, i + 1);
  }

  // ----------------------------------------------------------------------------------------------
  // Meaning of a block, with and without the eliminated flags
  // ----------------------------------------------------------------------------------------------

  /** Where control goes after an instruction: to the next one, or to a position (which leaves the
      block when it is not one of its instructions). */
  datatype Next = Fall | Goto(index: int)

  /** Outcome of one instruction: the new state, which flags it writes, with which values. */
  datatype Effect<S> = Effect(state: S, writes: Flags, values: Flags, next: Next)

  datatype Insn<!S> = Insn(word: FlagWord, run: (S, Flags) -> Effect<S>)

  /** Equal on the flags in `mask`. */
  predicate AgreeOn(mask: Flags, a: Flags, b: Flags) {
    && (mask.n ==> a.n == b.n)
    && (mask.z ==> a.z == b.z)
    && (mask.c ==> a.c == b.c)
    && (mask.v ==> a.v == b.v)
  }

  /** What an instruction's flag word promises about one execution of it: it writes at least its must
      set and at most its may set, its outcome depends on no flag outside its needs set, and it only
      jumps when it needs every flag and writes none. */
  ghost predicate RespectsAt<S>(insn: Insn<S>, s: S, a: Flags, b: Flags) {
    var e := insn.run(s, a);
    && (AgreeOn(insn.word.needs, a, b) ==> e == insn.run(s, b))
    && insn.word.must.SubsetOf(e.writes) && e.writes.SubsetOf(insn.word.may)
    && (e.next.Goto? ==> insn.word.needs == ALL && e.writes == NONE)
  }

  ghost predicate Respects<S(!new)>(insn: Insn<S>) {
    forall s, a, b :: RespectsAt(insn, s, a, b)
  }

  /** The flags after an instruction that generates only the flags in `keep`. */
  function Commit<S>(before: Flags, e: Effect<S>, keep: Flags): Flags {
    var w := e.writes.And(keep);
    before.Minus(w).Or(e.values.And(w))
  }

  datatype Config<S> = Config(pc: int, state: S, flags: Flags)

  /** One step of a block in which instruction `i` generates only the flags in `keep[i]`. */
  function Step<S>(block: seq<Insn<S>>, keep: seq<Flags>, c: Config<S>): Config<S>
    requires |keep| == |block|
  {
    if 0 <= c.pc < |block| then
      var e := block[c.pc].run(c.state, c.flags);
      Config(if e.next.Fall? then c.pc + 1 else e.next.index, e.state, Commit(c.flags, e, keep[c.pc]))
    else c
  }

  function Run<S>(block: seq<Insn<S>>, keep: seq<Flags>, c: Config<S>, steps: nat): Config<S>
    requires |keep| == |block|
  {
    if steps == 0 then c else Step(block, keep, Run(block, keep, c, steps - 1))
  }

  function Words<S>(block: seq<Insn<S>>): seq<FlagWord> {
    seq(|block|, i requires 0 <= i < |block| => block[i].word)
  }

  function EveryFlag(n: nat): seq<Flags> {
    seq(n, _ => ALL)
  }

  function KeptFlags(words: seq<FlagWord>, count: nat): seq<Flags>
    requires count <= |words|
  {
    seq(|words|, i requires 0 <= i < |words| => Kept(words, count, i))
  }

  /** The full and the reduced run are at the same place in the same state and agree on the flags
      that are live there; outside the block every flag is live. */
  ghost predicate Matches<S>(words: seq<FlagWord>, count: nat, full: Config<S>, reduced: Config<S>)
    requires count <= |words|
  {
    && full.pc == reduced.pc
    && full.state == reduced.state
    && AgreeOn(if 0 <= full.pc then LiveAt(words, count, full.pc) else ALL, full.flags, reduced.flags)
  }

  lemma StepMatches<S(!new)>(block: seq<Insn<S>>, count: nat, full: Config<S>, reduced: Config<S>)
    requires count <= |block|
    requires forall i | 0 <= i < |block| :: Respects(block[i])
    requires Matches(Words(block), count, full, reduced)
    ensures Matches(Words(block), count,
                    Step(block, EveryFlag(|block|), full),
                    Step(block, KeptFlags(Words(block), count), reduced))
  {
    var words := Words(block);
    if 0 <= full.pc < |block| {
      var insn := block[full.pc];
      assert words[full.pc] == insn.word;
      assert Respects(insn);
      assert RespectsAt(insn, full.state, full.flags, reduced.flags);
      assert AgreeOn(insn.word.needs, full.flags, reduced.flags);
    }
  }

  /** Meaning preservation. Run a block of any length, from any state, with every flag generated and
      with only the kept flags: after any number of steps control is at the same place with the same
      registers and memory, the flags agree wherever they are live, and once control has left the
      block all four flags agree. */
  lemma {:induction false} EliminationPreservesMeaning<S(!new)>(
      block: seq<Insn<S>>, count: nat, start: Config<S>, steps: nat)
    requires count <= |block|
    requires forall i | 0 <= i < |block| :: Respects(block[i])
    ensures var full := Run(block, EveryFlag(|block|), start, steps);
            var reduced := Run(block, KeptFlags(Words(block), count), start, steps);
            && Matches(Words(block), count, full, reduced)
            && (!(0 <= full.pc < |block|) ==> full == reduced)
  {
    if steps > 0 {
      EliminationPreservesMeaning(block, count, start, steps - 1);
      StepMatches(block, count, Run(block, EveryFlag(|block|), start, steps - 1),
                  Run(block, KeptFlags(Words(block), count), start, steps - 1));
    }
  }
}
