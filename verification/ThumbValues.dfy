/** What the logical instructions and the shifts of Thumb code compute, told bit by bit. */
module ThumbValues {
  import opened Basics
  import opened DeadFlags
  import opened FlagArith
  import opened ThumbFlags
  import opened Word32

  /** Bit `k` of a number; a negative one goes on in ones. */
  predicate Bit(x: int, k: nat)
    decreases k
  {
    if k == 0 then x % 2 == 1 else Bit(x / 2, k - 1)
  }

  // ----------------------------------------------------------------------------------------------
  // Words
  // ----------------------------------------------------------------------------------------------

  lemma {:induction false} BitwiseAt(x: nat, y: nat, bits: nat, f: (bool, bool) -> bool, k: nat)
    requires k < bits
    ensures Bit(Bitwise(x, y, bits, f), k) == f(Bit(x, k), Bit(y, k))
    decreases bits
  {
    var rest := Bitwise(x / 2, y / 2, bits - 1, f);
    assert Bitwise(x, y, bits, f) / 2 == rest;
    if k > 0 {
      BitwiseAt(x / 2, y / 2, bits - 1, f, k - 1);
    }
  }

  lemma Pow2Of32()
    ensures Pow2(32) == WORD
  {
    assert Pow2(8) == 256 by {
      assert Pow2(4) == 16;
    }
    assert Pow2(16) == 0x10000 by {
      assert Pow2(12) == 4096;
    }
    assert Pow2(24) == 0x100_0000 by {
      assert Pow2(20) == 0x10_0000;
    }
    assert Pow2(28) == 0x1000_0000;
  }

  lemma HalfOfProduct(x: int, p: int)
    ensures (2 * p * x) / 2 == p * x && (2 * p * x) % 2 == 0
  {
    assert 2 * p * x == 2 * (p * x);
  }

  /** Low bits below a multiple of a power of two: they do not meet. */
  lemma {:induction false} BitOfSum(a: nat, b: int, m: nat, k: nat)
    requires a < Pow2(m)
    ensures Bit(a + b * Pow2(m), k) == if k < m then Bit(a, k) else Bit(b, k - m)
    decreases m
  {
    if m > 0 {
      var p := Pow2(m - 1);
      HalfOfProduct(b, p);
      assert b * Pow2(m) == 2 * p * b;
      assert (a + b * Pow2(m)) / 2 == a / 2 + b * p;
      assert (a + b * Pow2(m)) % 2 == a % 2;
      if k > 0 {
        BitOfSum(a / 2, b, m - 1, k - 1);
      }
    }
  }

  /** Keeping 32 bits keeps those bits. */
  lemma WrapAt(x: int, k: nat)
    requires k < 32
    ensures Bit(Wrap(x), k) == Bit(x, k)
  {
    Pow2Of32();
    BitOfSum(x % WORD, x / WORD, 32, k);
  }

  /** Above its top bit a number repeats its sign. */
  lemma {:induction false} BitAbove(x: int, m: nat, k: nat)
    requires 0 <= x + Pow2(m) && x < Pow2(m) && k >= m
    ensures Bit(x, k) == (x < 0)
    decreases m, k
  {
    if m > 0 {
      BitAbove(x / 2, m - 1, k - 1);
    } else if k > 0 {
      BitAbove(x / 2, 0, k - 1);
    }
  }

  lemma {:induction false} NotAt(x: int, k: nat)
    ensures Bit(-1 - x, k) == !Bit(x, k)
    decreases k
  {
    if k > 0 {
      assert (-1 - x) / 2 == -1 - x / 2;
      NotAt(x / 2, k - 1);
    }
  }

  lemma ShiftedLeftAt(x: int, n: nat, k: nat)
    ensures Bit(x * Pow2(n), k) == (k >= n && Bit(x, k - n))
  {
    BitOfSum(0, x, n, k);
    NoBits(k);
  }

  lemma {:induction false} NoBits(k: nat)
    ensures !Bit(0, k)
  {
    if k > 0 {
      NoBits(k - 1);
    }
  }

  lemma ShiftedRightAt(x: int, n: nat, k: nat)
    ensures Bit(x / Pow2(n), k) == Bit(x, k + n)
  {
    var p := Pow2(n);
    BitOfSum(x % p, x / p, n, k + n);
    assert x == x % p + x / p * p;
  }

  /** A word has no bits above 31, and as a signed number repeats its top bit. */
  lemma BitsEnd(x: u32, k: nat)
    ensures k >= 32 ==> !Bit(x, k)
    ensures Bit(Signed(x), k) == Bit(x, if k < 32 then k else 31)
    ensures Negative(x) <==> Bit(x, 31)
  {
    Pow2Of32();
    if k >= 32 {
      BitAbove(x, 32, k);
      BitAbove(Signed(x), 31, k);
    } else {
      WrapAt(Signed(x), k);
      assert Wrap(Signed(x)) == x;
    }
    BitAbove(Signed(x), 31, 31);
    WrapAt(Signed(x), 31);
    assert Wrap(Signed(x)) == x;
  }

  // ----------------------------------------------------------------------------------------------
  // Shifts
  // ----------------------------------------------------------------------------------------------

  datatype Kind = Lsl | Lsr | Asr | Ror

  /** A shift of `x` by `n`, as it shows in bit `k`: in LSL bits move up and zeroes come in; in LSR they move down, in
      ASR with copies of the top bit coming in, and in ROR those that leave come in again. The carry is the last bit
      that left, and is kept if none did. */
  ghost predicate IsShift(kind: Kind, x: u32, n: u32, r: Shifted, k: nat)
    requires k < 32
  {
    && r.writesC == (n > 0)
    && match kind
       case Lsl => Bit(r.dest, k) == (k >= n && Bit(x, k - n)) && (n > 0 ==> r.c == (n <= 32 && Bit(x, 32 - n)))
       case Lsr => Bit(r.dest, k) == Bit(x, k + n) && (n > 0 ==> r.c == Bit(x, n - 1))
       case Asr =>
         && Bit(r.dest, k) == Bit(x, if k + n < 32 then k + n else 31)
         && (n > 0 ==> r.c == Bit(x, if n < 32 then n - 1 else 31))
       case Ror => Bit(r.dest, k) == Bit(x, (k + n) % 32) && (n > 0 ==> r.c == Bit(x, (n - 1) % 32))
  }

  lemma LslBits(x: u32, n: u32, k: nat)
    requires k < 32
    ensures IsShift(Lsl, x, n, LslReg(x, n), k)
  {
    NoBits(k);
    if 0 < n < 32 {
      WrapAt(x * Pow2(n), k);
      ShiftedLeftAt(x, n, k);
      RightAt(x, 32 - n, 0);
    }
  }

  lemma RightAt(x: u32, n: nat, k: nat)
    requires k < 32
    ensures Bit(ShiftRight(x, n), k) == Bit(x, k + n)
  {
    WrapAt(x / Pow2(n), k);
    ShiftedRightAt(x, n, k);
  }

  lemma LsrBits(x: u32, n: u32, k: nat)
    requires k < 32
    ensures IsShift(Lsr, x, n, LsrReg(x, n), k)
  {
    BitsEnd(x, k + n);
    if 0 < n {
      BitsEnd(x, n - 1);
      RightAt(x, n, k);
      RightAt(x, n - 1, 0);
    }
    if n >= 32 {
      NoBits(k);
    }
  }

  lemma AsrBits(x: u32, n: u32, k: nat)
    requires k < 32
    ensures IsShift(Asr, x, n, AsrReg(x, n), k)
  {
    BitsEnd(x, k + n);
    if 0 < n {
      SignedRightAt(x, if n > 31 then 31 else n, k);
      RightAt(x, n - 1, 0);
    }
  }

  lemma SignedRightAt(x: u32, n: nat, k: nat)
    requires k < 32
    ensures Bit(ShiftRightSigned(x, n), k) == Bit(x, if k + n < 32 then k + n else 31)
  {
    WrapAt(Signed(x) / Pow2(n), k);
    ShiftedRightAt(Signed(x), n, k);
    BitsEnd(x, k + n);
  }

  lemma RorBits(x: u32, n: u32, k: nat)
    requires k < 32
    ensures IsShift(Ror, x, n, RorReg(x, n), k)
  {
    hide Bit, Rotate, ShiftRight;
    ModuloAdds(k, n);
    if n > 0 {
      var last := (n - 1) % 32;
      RotateAt(x, n % 32, k);
      RightAt(x, last, 0);
      ShiftedOutIsLow(ShiftRight(x, last));
    }
  }

  lemma ModuloAdds(k: nat, n: nat)
    ensures (k + n) % 32 == (k + n % 32) % 32
    ensures k < 32 && n == 0 ==> (k + n) % 32 == k
  {
  }

  lemma ShiftedOutIsLow(x: int)
    ensures Odd(x) == Bit(x, 0)
  {
  }

  lemma RotateAt(x: u32, n: nat, k: nat)
    requires n < 32 && k < 32
    ensures Bit(Rotate(x, n), k) == Bit(x, (k + n) % 32)
  {
    hide Bit, Rotate, Wrap, Pow2;
    Parts(x, n);
    var low, p := x / Pow2(n), Pow2(32 - n);
    WrapAt(low + x * p, k);
    BitOfSum(low, x, 32 - n, k);
    ShiftedRightAt(x, n, k);
    BitsEnd(x, k + n);
  }

  lemma Parts(x: u32, n: nat)
    requires n < 32
    ensures x / Pow2(n) < Pow2(32 - n)
    ensures Rotate(x, n) == Wrap(x / Pow2(n) + x * Pow2(32 - n))
  {
    Pow2Of32();
    PowersMultiply(n, 32 - n);
    QuotientBelow(x, Pow2(n), Pow2(32 - n));
    WrapsAdd(x / Pow2(n), x * Pow2(32 - n));
  }

  lemma {:induction false} PowersMultiply(a: nat, b: nat)
    ensures Pow2(a + b) == Pow2(a) * Pow2(b)
  {
    if a > 0 {
      PowersMultiply(a - 1, b);
      assert 2 * Pow2(a - 1) * Pow2(b) == 2 * (Pow2(a - 1) * Pow2(b));
    }
  }

  lemma QuotientBelow(x: nat, p: nat, q: nat)
    requires p > 0 && x < p * q
    ensures 0 <= x / p < q
  {
  }

  lemma WrapsAdd(a: int, b: int)
    ensures Wrap(Wrap(a) + Wrap(b)) == Wrap(a + b)
  {
    var rest := a % WORD + b % WORD;
    assert a + b == WORD * (a / WORD + b / WORD + rest / WORD) + rest % WORD;
  }

  /** The shifts by a number in the opcode are those by a register, with zero standing for 32 in LSR and ASR. */
  lemma ImmediateShifts(x: u32, n: nat)
    requires n < 32
    ensures LslImm(x, n) == LslReg(x, n)
    ensures LsrImm(x, n) == LsrReg(x, if n == 0 then 32 else n)
    ensures AsrImm(x, n) == AsrReg(x, if n == 0 then 32 else n)
  {
  }

  // ----------------------------------------------------------------------------------------------
  // The instructions
  // ----------------------------------------------------------------------------------------------

  /** What each of the sixteen register instructions computes, by their number in the opcode, as it shows in bit `k`
      of its first register, and in the carry if it is a shift. */
  ghost predicate Expected(code: nat, x: u32, y: u32, carry: bool, r: Shifted, k: nat)
    requires k < 32
  {
    match code
    case 0 => Bit(r.dest, k) == (Bit(x, k) && Bit(y, k))
    case 1 => Bit(r.dest, k) == (Bit(x, k) != Bit(y, k))
    case 2 => IsShift(Lsl, x, y, r, k)
    case 3 => IsShift(Lsr, x, y, r, k)
    case 4 => IsShift(Asr, x, y, r, k)
    case 5 => r.dest == (x + y + (if carry then 1 else 0)) % WORD
    case 6 => r.dest == (x - y - (if carry then 0 else 1)) % WORD
    case 7 => IsShift(Ror, x, y, r, k)
    case 9 => r.dest == (0 - y) % WORD
    case 12 => Bit(r.dest, k) == (Bit(x, k) || Bit(y, k))
    case 13 => r.dest == x * y % WORD
    case 14 => Bit(r.dest, k) == (Bit(x, k) && !Bit(y, k))
    case 15 => Bit(r.dest, k) == !Bit(y, k)
    case _ => r.dest == x
  }

  lemma NotBits(x: u32, k: nat)
    requires k < 32
    ensures Bit(Not(x), k) == !Bit(x, k)
  {
    NotAt(x, k);
    WrapAt(-1 - x, k);
    assert Wrap(-1 - x) == Not(x);
  }

  lemma AndBits(x: u32, y: u32, k: nat)
    requires k < 32
    ensures Bit(And(x, y), k) == (Bit(x, k) && Bit(y, k))
  {
    var f := (a, b) => a && b;
    BitwiseAt(x, y, 32, f, k);
    WrapAt(Bitwise(x, y, 32, f), k);
  }

  lemma OrBits(x: u32, y: u32, k: nat)
    requires k < 32
    ensures Bit(Or(x, y), k) == (Bit(x, k) || Bit(y, k))
  {
    var f := (a, b) => a || b;
    BitwiseAt(x, y, 32, f, k);
    WrapAt(Bitwise(x, y, 32, f), k);
  }

  lemma XorBits(x: u32, y: u32, k: nat)
    requires k < 32
    ensures Bit(Xor(x, y), k) == (Bit(x, k) != Bit(y, k))
  {
    var f := (a: bool, b: bool) => a != b;
    BitwiseAt(x, y, 32, f, k);
    WrapAt(Bitwise(x, y, 32, f), k);
  }

  /** The number of a register instruction. */
  function Code(op: Opcode): nat { op / 64 % 16 }

  /** The interpreter's functions for them. */
  ghost function Computed(code: nat, x: u32, y: u32, carry: bool): Shifted {
    match code
    case 0 => Shifted(And(x, y), false, false)
    case 1 => Shifted(Xor(x, y), false, false)
    case 2 => LslReg(x, y)
    case 3 => LsrReg(x, y)
    case 4 => AsrReg(x, y)
    case 5 => Shifted(AddWithFlags(x, y, carry).dest, true, AddWithFlags(x, y, carry).flags.c)
    case 6 => Shifted(SubWithFlags(x, y, carry).dest, true, SubWithFlags(x, y, carry).flags.c)
    case 7 => RorReg(x, y)
    case 9 => Shifted(SubWithFlags(0, y, true).dest, true, SubWithFlags(0, y, true).flags.c)
    case 12 => Shifted(Or(x, y), false, false)
    case 13 => Shifted(Times(x, y), false, false)
    case 14 => Shifted(And(x, Not(y)), false, false)
    case 15 => Shifted(Not(y), false, false)
    case _ => Shifted(x, false, false)
  }

  lemma Sums(x: u32, y: u32, carry: bool)
    ensures AddWithFlags(x, y, carry).dest == (x + y + (if carry then 1 else 0)) % WORD
    ensures SubWithFlags(x, y, carry).dest == (x - y - (if carry then 0 else 1)) % WORD
  {
    hide AddWithFlags, SubWithFlags, Signed, FitsSigned;
    AddIsExact(x, y, carry);
    SubIsExact(x, y, carry);
  }

  lemma Products(x: u32, y: u32)
    ensures Times(x, y) == x * y % WORD
  {
  }

  lemma ComputedExpected(code: nat, x: u32, y: u32, carry: bool, k: nat)
    requires k < 32
    ensures Expected(code, x, y, carry, Computed(code, x, y, carry), k)
  {
    hide Bit, And, Or, Xor, Not, LslReg, LsrReg, AsrReg, RorReg, AddWithFlags, SubWithFlags, Times, IsShift;
    match code
    case 0 => AndBits(x, y, k);
    case 1 => XorBits(x, y, k);
    case 2 => LslBits(x, y, k);
    case 3 => LsrBits(x, y, k);
    case 4 => AsrBits(x, y, k);
    case 5 => Sums(x, y, carry);
    case 6 => Sums(x, y, carry);
    case 7 => RorBits(x, y, k);
    case 9 => Sums(0, y, true);
    case 12 => OrBits(x, y, k);
    case 13 => Products(x, y);
    case 14 =>
      AndBits(x, Not(y), k);
      NotBits(y, k);
    case 15 => NotBits(y, k);
    case _ =>
  }

  /** Which of them set N and Z to tell about the result, by other means than an addition or a subtraction. */
  predicate IsLogical(code: nat) { code !in {5, 6, 8, 9, 10, 11} }

  predicate IsShiftCode(code: nat) { code in {2, 3, 4, 7} }

  /** An instruction has put `d` into its register and gone on to the next one. */
  ghost predicate Puts<M>(e: Effect<Cpu<M>>, s: Cpu<M>, rd: nat, d: u32)
    requires rd < 8
  {
    e.next == Fall && e.state.mem == s.mem && e.state.r == s.r[rd := d][15 := Plus(s.r[15], 2)]
  }

  lemma CodeIs(op: Opcode)
    requires 0x40 <= High(op) <= 0x43
    ensures High(op) * 4 + AluSub(op) == 0x100 + Code(op) && Code(op) < 16 && 0 <= Rd(op) < 8 && 0 <= Rs(op) < 8
  {
  }

  lemma AluComputes<M>(op: Opcode, s: Cpu<M>, f: Flags)
    requires 0x40 <= High(op) <= 0x43
    ensures var e, r := Alu(op, s, f), Computed(Code(op), s.r[Rd(op)], s.r[Rs(op)], f.c);
            && Puts(e, s, Rd(op), r.dest)
            && (IsLogical(Code(op)) ==> e.values.n == Negative(r.dest) && e.values.z == (r.dest == 0))
            && (IsShiftCode(Code(op)) ==> e.writes.c == r.writesC && e.values.c == r.c)
  {
    hide And, Or, Xor, Not, LslReg, LsrReg, AsrReg, RorReg, AddWithFlags, SubWithFlags, Times, Plus, Negative;
    hide Code, High, AluSub, Rd, Rs;
    CodeIs(op);
    assert s.r[Rd(op) := s.r[Rd(op)]] == s.r;
  }

  lemma RunsAlu<M>(w: World<M>, op: Opcode, s: Cpu<M>, f: Flags)
    requires 0x40 <= High(op) <= 0x43
    ensures Execute(w, op, s, f) == Alu(op, s, f)
  {
  }

  /** They compute that, go on to the next instruction and change no other register. The logical ones and the shifts
      set N to the top bit of the result and Z if it has none. */
  lemma DataBits<M>(w: World<M>, op: Opcode, s: Cpu<M>, f: Flags, k: nat)
    requires 0x40 <= High(op) <= 0x43 && k < 32
    ensures exists r: Shifted ::
              var e := Execute(w, op, s, f);
              && Expected(Code(op), s.r[Rd(op)], s.r[Rs(op)], f.c, r, k) && Puts(e, s, Rd(op), r.dest)
              && (IsLogical(Code(op)) ==> e.values.n == Bit(r.dest, 31) && e.values.z == (r.dest == 0))
              && (IsShiftCode(Code(op)) ==> e.writes.c == r.writesC && e.values.c == r.c)
  {
    hide Expected, Computed, Execute, Alu, Bit, Plus, Negative, Puts;
    RunsAlu(w, op, s, f);
    AluComputes(op, s, f);
    ComputedExpected(Code(op), s.r[Rd(op)], s.r[Rs(op)], f.c, k);
    BitsEnd(Computed(Code(op), s.r[Rd(op)], s.r[Rs(op)], f.c).dest, 0);
  }

  /** So do the shifts by a number, where zero stands for 32 in LSR and ASR. */
  lemma ShiftBits<M>(w: World<M>, op: Opcode, s: Cpu<M>, f: Flags, k: nat)
    requires High(op) < 0x18 && k < 32
    ensures var kind := if High(op) < 8 then Lsl else if High(op) < 16 then Lsr else Asr;
            var n := if kind != Lsl && Imm5(op) == 0 then 32 else Imm5(op);
            var e := Execute(w, op, s, f);
            exists r: Shifted ::
              && IsShift(kind, s.r[Rs(op)], n, r, k) && Puts(e, s, Rd(op), r.dest)
              && e.values.n == Bit(r.dest, 31) && e.values.z == (r.dest == 0)
              && e.writes.c == r.writesC && e.values.c == r.c
  {
    hide Bit, LslReg, LsrReg, AsrReg, LslImm, LsrImm, AsrImm, Plus, Negative, IsShift;
    var x, imm := s.r[Rs(op)], Imm5(op);
    var n := if High(op) >= 8 && imm == 0 then 32 else imm;
    ImmediateShifts(x, imm);
    LslBits(x, n, k);
    LsrBits(x, n, k);
    AsrBits(x, n, k);
    var r := if High(op) < 8 then LslImm(x, imm) else if High(op) < 16 then LsrImm(x, imm) else AsrImm(x, imm);
    BitsEnd(r.dest, 0);
    assert Puts(Execute(w, op, s, f), s, Rd(op), r.dest);
  }

  // ----------------------------------------------------------------------------------------------
  // Additions and subtractions
  // ----------------------------------------------------------------------------------------------

  /** What an instruction adds or subtracts, with which carry, and the register that the result goes to; a comparison
      drops it. */
  datatype Operation = Operation(a: u32, b: u32, sub: bool, carry: bool, rd: nat, keeps: bool)

  /** The opcodes that add or subtract and set the flags, by the format bits of section A6 of ARM DDI 0100. */
  ghost function OperationOf(op: Opcode, r: Regs, carry: bool): Option<Operation> {
    var low, middle, high := op % 8, op / 8 % 8, op / 0x40 % 8;
    if op / 0x800 == 3 then
      var sub := op / 0x200 % 2 == 1;
      Some(Operation(r[middle], if op / 0x400 % 2 == 1 then high else r[high], sub, sub, low, true))
    else if op / 0x2000 == 1 && op / 0x800 % 4 != 0 then
      var rd, sub := op / 0x100 % 8, op / 0x800 % 4 != 2;
      Some(Operation(r[rd], op % 0x100, sub, sub, rd, op / 0x800 % 4 != 1))
    else if op / 0x400 == 0x10 then
      match op / 0x40 % 16
      case 5 => Some(Operation(r[low], r[middle], false, carry, low, true))
      case 6 => Some(Operation(r[low], r[middle], true, carry, low, true))
      case 9 => Some(Operation(0, r[middle], true, true, low, true))
      case 10 => Some(Operation(r[low], r[middle], true, true, low, false))
      case 11 => Some(Operation(r[low], r[middle], false, false, low, false))
      case _ => None
    else None
  }

  /** A result and its flags, told by the numbers: V says that the signed one does not fit, C that the unsigned one
      does not, or in a subtraction that it does. */
  ghost predicate IsResult(o: Operation, d: u32, f: Flags) {
    var c := if o.carry then 1 else 0;
    var unsigned := if o.sub then o.a - o.b - (1 - c) else o.a + o.b + c;
    var signed := if o.sub then Signed(o.a) - Signed(o.b) - (1 - c) else Signed(o.a) + Signed(o.b) + c;
    && d == unsigned % WORD
    && f.n == Negative(d) && f.z == (d == 0)
    && f.c == (if o.sub then unsigned >= 0 else unsigned >= WORD) && f.v == !(-SIGN <= signed < SIGN)
  }

  ghost function Summed(o: Operation): Result {
    if o.sub then SubWithFlags(o.a, o.b, o.carry) else AddWithFlags(o.a, o.b, o.carry)
  }

  lemma SummedIs(o: Operation)
    ensures IsResult(o, Summed(o).dest, Summed(o).flags)
  {
    hide AddWithFlags, SubWithFlags, Signed;
    AddIsExact(o.a, o.b, o.carry);
    SubIsExact(o.a, o.b, o.carry);
    Sums(o.a, o.b, o.carry);
    TopIsSign(Summed(o).dest);
  }

  lemma TopIsSign(x: u32)
    ensures Negative(x) <==> Signed(x) < 0
  {
  }

  /** The case of the interpreter for such an opcode does that. */
  ghost predicate DoesIt<M>(e: Effect<Cpu<M>>, s: Cpu<M>, o: Operation) {
    && o.rd < 8 && Puts(e, s, o.rd, if o.keeps then Summed(o).dest else s.r[o.rd])
    && e.writes == ALL && e.values == Summed(o).flags
  }

  lemma ThreeFields(op: Opcode)
    requires op / 0x800 == 3
    ensures var hi := High(op);
            0x18 <= hi < 0x20 && (hi < 0x1C <==> op / 0x400 % 2 == 0) &&
            (hi <= 0x19 || 0x1C <= hi <= 0x1D <==> op / 0x200 % 2 == 0)
  {
  }

  lemma RunsThree<M>(op: Opcode, s: Cpu<M>, f: Flags)
    requires op / 0x800 == 3
    ensures 0x18 <= High(op) < 0x20 && DoesIt(ShiftOrAdd(op, s), s, OperationOf(op, s.r, f.c).value)
  {
    hide AddWithFlags, SubWithFlags, Plus, High;
    ThreeFields(op);
  }

  lemma ImmediateFields(op: Opcode)
    requires op / 0x2000 == 1
    ensures 0x20 <= High(op) < 0x40 && High(op) % 8 == op / 0x100 % 8
    ensures (High(op) - 0x20) / 8 == op / 0x800 % 4 && op / 0x800 != 3
  {
  }

  lemma RunsImmediate<M>(op: Opcode, s: Cpu<M>, f: Flags)
    requires op / 0x2000 == 1 && op / 0x800 % 4 != 0
    ensures 0x20 <= High(op) < 0x40 && DoesIt(ShiftOrAdd(op, s), s, OperationOf(op, s.r, f.c).value)
  {
    hide AddWithFlags, SubWithFlags, Plus, High;
    ImmediateFields(op);
    assert forall rd | 0 <= rd < 8 :: s.r[rd := s.r[rd]] == s.r;
  }

  lemma RegisterFields(op: Opcode)
    requires op / 0x400 == 0x10
    ensures 0x40 <= High(op) <= 0x43 && op / 0x800 != 3 && op / 0x2000 != 1
  {
  }

  lemma RunsRegister<M>(op: Opcode, s: Cpu<M>, f: Flags)
    requires op / 0x400 == 0x10 && OperationOf(op, s.r, f.c).Some?
    ensures 0x40 <= High(op) <= 0x43 && DoesIt(Alu(op, s, f), s, OperationOf(op, s.r, f.c).value)
  {
    hide And, Or, Xor, Not, LslReg, LsrReg, AsrReg, RorReg, AddWithFlags, SubWithFlags, Times, Plus, High, AluSub;
    RegisterFields(op);
    CodeIs(op);
    assert s.r[Rd(op) := s.r[Rd(op)]] == s.r;
  }

  lemma RunsOperation<M>(w: World<M>, op: Opcode, s: Cpu<M>, f: Flags)
    requires OperationOf(op, s.r, f.c).Some?
    ensures DoesIt(Execute(w, op, s, f), s, OperationOf(op, s.r, f.c).value)
  {
    hide DoesIt, Alu, ShiftOrAdd;
    if op / 0x800 == 3 {
      RunsThree(op, s, f);
    } else if op / 0x2000 == 1 {
      RunsImmediate(op, s, f);
    } else {
      RunsRegister(op, s, f);
    }
  }

  /** They leave that result and those flags, and nothing else. */
  lemma ArithmeticIsExact<M>(w: World<M>, op: Opcode, s: Cpu<M>, f: Flags)
    requires OperationOf(op, s.r, f.c).Some?
    ensures var e, o := Execute(w, op, s, f), OperationOf(op, s.r, f.c).value;
            o.rd < 8 && e.writes == ALL &&
            exists d: u32 :: IsResult(o, d, e.values) && Puts(e, s, o.rd, if o.keeps then d else s.r[o.rd])
  {
    hide Execute, OperationOf, Summed, IsResult, Puts;
    RunsOperation(w, op, s, f);
    SummedIs(OperationOf(op, s.r, f.c).value);
  }
}
