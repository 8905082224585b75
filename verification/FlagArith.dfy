/** The interpreter's add and subtract with flags, and its condition tests. */
module FlagArith {
  import opened DeadFlags
  import opened Word32

  datatype Result = Result(dest: u32, flags: Flags)

  function CarryIn(c: bool): int { if c then 1 else 0 }

  /** ADDS, ADCS and CMN: carry comes from two unsigned comparisons, overflow from bit 31 of
      ~(a ^ b) & (a ^ dest). */
  function AddWithFlags(a: u32, b: u32, carry: bool): Result {
    var sum := Wrap(a + b);
    var dest := Wrap(sum + CarryIn(carry));
    Result(dest, Flags(Negative(dest), dest == 0, sum < b || dest < CarryIn(carry),
                       Negative(a) == Negative(b) && Negative(a) != Negative(dest)))
  }

  /** SUBS, SBCS, RSBS, NEG and CMP: carry is "no borrow", overflow is bit 31 of
      (a ^ b) & (~b ^ dest). */
  function SubWithFlags(a: u32, b: u32, carry: bool): Result {
    var dest := Wrap(a + Not(b) + CarryIn(carry));
    Result(dest, Flags(Negative(dest), dest == 0, if carry then b <= a else b < a,
                       Negative(a) != Negative(b) && !Negative(b) != Negative(dest)))
  }

  predicate FitsSigned(x: int) { -SIGN <= x < SIGN }

  /** One addition is exact: result and carry together are the unsigned sum, overflow says whether the
      signed sum, carry included, is representable, and when it is the result is that sum. */
  lemma AddIsExact(a: u32, b: u32, carry: bool)
    ensures var r := AddWithFlags(a, b, carry);
            && r.dest + WORD * CarryIn(r.flags.c) == a + b + CarryIn(carry)
            && (r.flags.v <==> !FitsSigned(Signed(a) + Signed(b) + CarryIn(carry)))
            && (!r.flags.v ==> Signed(r.dest) == Signed(a) + Signed(b) + CarryIn(carry))
            && (r.flags.z <==> (a + b + CarryIn(carry)) % WORD == 0)
            && (r.flags.n <==> Signed(r.dest) < 0)
  {
    var sum := Wrap(a + b);
    assert sum == if a + b < WORD then a + b else a + b - WORD;
  }

  /** One subtraction is exact in the same sense, with borrow for the inverted carry. */
  lemma SubIsExact(a: u32, b: u32, carry: bool)
    ensures var r := SubWithFlags(a, b, carry);
            && r.dest - WORD * (1 - CarryIn(r.flags.c)) == a - b - (1 - CarryIn(carry))
            && (r.flags.v <==> !FitsSigned(Signed(a) - Signed(b) - (1 - CarryIn(carry))))
            && (!r.flags.v ==> Signed(r.dest) == Signed(a) - Signed(b) - (1 - CarryIn(carry)))
            && (r.flags.z <==> (a - b - (1 - CarryIn(carry))) % WORD == 0)
            && (r.flags.n <==> Signed(r.dest) < 0)
  {
    var x := a + Not(b) + CarryIn(carry);
    assert Wrap(x) == if x < WORD then x else x - WORD;
  }

  // ----------------------------------------------------------------------------------------------
  // Multi-word arithmetic: a chain of ADDS/ADCS or SUBS/SBCS, least significant word first
  // ----------------------------------------------------------------------------------------------

  function Value(ws: seq<u32>): int {
    if ws == [] then 0 else ws[0] + WORD * Value(ws[1..])
  }

  function WordPower(n: nat): int {
    if n == 0 then 1 else WORD * WordPower(n - 1)
  }

  datatype Chain = Chain(words: seq<u32>, carry: bool)

  function AddChain(a: seq<u32>, b: seq<u32>, carry: bool): (r: Chain)
    requires |a| == |b|
    ensures |r.words| == |a|
  {
    if a == [] then Chain([], carry)
    else
      var low := AddWithFlags(a[0], b[0], carry);
      var rest := AddChain(a[1..], b[1..], low.flags.c);
      Chain([low.dest] + rest.words, rest.carry)
  }

  function SubChain(a: seq<u32>, b: seq<u32>, carry: bool): (r: Chain)
    requires |a| == |b|
    ensures |r.words| == |a|
  {
    if a == [] then Chain([], carry)
    else
      var low := SubWithFlags(a[0], b[0], carry);
      var rest := SubChain(a[1..], b[1..], low.flags.c);
      Chain([low.dest] + rest.words, rest.carry)
  }

  /** A chain over n words computes the exact n*32-bit sum and its carry. ADDS starts it with no
      carry. */
  lemma {:induction false} AddChainExact(a: seq<u32>, b: seq<u32>, carry: bool)
    requires |a| == |b|
    ensures var r := AddChain(a, b, carry);
            Value(r.words) + (if r.carry then WordPower(|a|) else 0) == Value(a) + Value(b) + CarryIn(carry)
  {
    if a != [] {
      var low := AddWithFlags(a[0], b[0], carry);
      AddIsExact(a[0], b[0], carry);
      AddChainExact(a[1..], b[1..], low.flags.c);
      var rest := AddChain(a[1..], b[1..], low.flags.c);
      assert ([low.dest] + rest.words)[1..] == rest.words;
    }
  }

  /** The same for subtraction: the final carry is clear exactly when the whole number borrows. SUBS
      starts the chain with the carry set. */
  lemma {:induction false} SubChainExact(a: seq<u32>, b: seq<u32>, carry: bool)
    requires |a| == |b|
    ensures var r := SubChain(a, b, carry);
            Value(r.words) - (if r.carry then 0 else WordPower(|a|)) ==
            Value(a) - Value(b) - (1 - CarryIn(carry))
  {
    if a != [] {
      var low := SubWithFlags(a[0], b[0], carry);
      SubIsExact(a[0], b[0], carry);
      SubChainExact(a[1..], b[1..], low.flags.c);
      var rest := SubChain(a[1..], b[1..], low.flags.c);
      assert ([low.dest] + rest.words)[1..] == rest.words;
    }
  }

  lemma {:induction false} ValueBounds(ws: seq<u32>)
    ensures 0 <= Value(ws) < WordPower(|ws|)
  {
    if ws != [] {
      ValueBounds(ws[1..]);
    }
  }

  /** Comparing multi-word numbers: after a SUBS/SBCS chain, carry set means "not lower". */
  lemma SubChainCompares(a: seq<u32>, b: seq<u32>)
    requires |a| == |b|
    ensures SubChain(a, b, true).carry <==> Value(a) >= Value(b)
  {
    SubChainExact(a, b, true);
    ValueBounds(SubChain(a, b, true).words);
  }

  // ----------------------------------------------------------------------------------------------
  // Conditions
  // ----------------------------------------------------------------------------------------------

  /** When the ARM interpreter skips an instruction with condition field `cond`. */
  predicate ArmSkips(cond: int, f: Flags)
    requires 0 <= cond < 16
  {
    match cond
    case 0x0 => !f.z
    case 0x1 => f.z
    case 0x2 => !f.c
    case 0x3 => f.c
    case 0x4 => !f.n
    case 0x5 => f.n
    case 0x6 => !f.v
    case 0x7 => f.v
    case 0x8 => !f.c || f.z
    case 0x9 => f.c && !f.z
    case 0xA => f.n != f.v
    case 0xB => f.n == f.v
    case 0xC => f.z || f.n != f.v
    case 0xD => !f.z && f.n == f.v
    case 0xE => false
    case _ => true
  }

  /** When the Thumb interpreter takes the conditional branch with opcode byte 0xD0 + `cond`. */
  predicate ThumbTakes(cond: int, f: Flags)
    requires 0 <= cond < 14
  {
    match cond
    case 0x0 => f.z
    case 0x1 => !f.z
    case 0x2 => f.c
    case 0x3 => !f.c
    case 0x4 => f.n
    case 0x5 => !f.n
    case 0x6 => f.v
    case 0x7 => !f.v
    case 0x8 => f.c && !f.z
    case 0x9 => !f.c || f.z
    case 0xA => f.n == f.v
    case 0xB => f.n != f.v
    case 0xC => !f.z && f.n == f.v
    case _ => f.z || f.n != f.v
  }

  /** What each condition means after CMP a, b (ARM Architecture Reference Manual, section A3.2). */
  predicate Holds(cond: int, a: u32, b: u32)
    requires 0 <= cond < 14
  {
    var difference := Signed(a) - Signed(b);
    match cond
    case 0x0 => a == b
    case 0x1 => a != b
    case 0x2 => a >= b
    case 0x3 => a < b
    case 0x4 => (difference < 0) == FitsSigned(difference)
    case 0x5 => (difference >= 0) == FitsSigned(difference)
    case 0x6 => !FitsSigned(difference)
    case 0x7 => FitsSigned(difference)
    case 0x8 => a > b
    case 0x9 => a <= b
    case 0xA => Signed(a) >= Signed(b)
    case 0xB => Signed(a) < Signed(b)
    case 0xC => Signed(a) > Signed(b)
    case _ => Signed(a) <= Signed(b)
  }

  lemma ConditionsAfterCompare(cond: int, a: u32, b: u32)
    requires 0 <= cond < 14
    ensures var f := SubWithFlags(a, b, true).flags;
            && (!ArmSkips(cond, f) <==> Holds(cond, a, b))
            && (ThumbTakes(cond, f) <==> Holds(cond, a, b))
  {
    SubIsExact(a, b, true);
  }
}
