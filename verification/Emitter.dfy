/** What the translator needs of the host code emitter: how many bytes it appends, and where the branch
    of a direct exit lies. The code itself is left open. */
module Emitter {
  import opened Basics
  import opened Word32

  /** Bounds on what is appended for the start of a block, one guest instruction, a cycle update between two
      instructions, and the gate that ends every block. A block is entered `prologue` bytes after its start;
      the code that starts it may be longer. An instruction may come without any code. */
  datatype Bounds = Bounds(prologue: nat, headMax: nat, insnMax: nat, updateMax: nat, gateMin: nat, gateMax: nat) {
    predicate Consistent() { prologue <= headMax && 1 <= insnMax && 1 <= gateMin <= gateMax }

    /** The most code that `n` instructions take, cycle updates included. */
    function Most(n: nat): nat { n * (insnMax + updateMax) }

    lemma MostRises(m: nat, n: nat)
      requires m <= n
      ensures Most(0) == 0 && Most(m) <= Most(n)
    {
      Distributes(m, n - m, insnMax + updateMax);
    }

    lemma MostGrows(m: nat, n: nat)
      requires m < n
      ensures Most(m + 1) == Most(m) + insnMax + updateMax && Most(m + 1) <= Most(n)
    {
      Distributes(m, 1, insnMax + updateMax);
      MostRises(m + 1, n);
    }
  }

  lemma Distributes(m: nat, n: nat, each: nat)
    ensures (m + n) * each == m * each + n * each && 0 <= n * each && 1 * each == each
  {
  }

  /** A direct branch emitted at [lo, hi), in the code of instruction `insn` of its block, for the guest address
      `target`. */
  datatype Branch = Branch(target: u32, lo: nat, hi: nat, insn: nat)

  ghost predicate BranchesInside(branches: seq<Branch>, lo: nat, hi: nat) {
    forall i | 0 <= i < |branches| :: lo <= branches[i].lo < branches[i].hi <= hi
  }

  /** Emits the start of a block at `at`. `limit` is the end of the memory that may be written. */
  method EmitHead(e: Bounds, at: nat, ghost limit: int) returns (end: nat)
    requires e.Consistent() && at + e.headMax <= limit
    ensures at + e.prologue <= end <= at + e.headMax && end <= limit
  {
    var size: nat :| e.prologue <= size <= e.headMax;
    end := at + size;
  }

  /** Emits instruction `insn` at `at`, at most insnMax bytes, with a branch somewhere inside if it has one. */
  method EmitInsn(e: Bounds, target: Option<u32>, insn: nat, at: nat, ghost limit: int)
    returns (end: nat, branches: seq<Branch>)
    requires e.Consistent() && at + e.insnMax <= limit
    ensures at <= end <= at + e.insnMax && end <= limit
    ensures BranchesInside(branches, at, end)
    ensures if target.Some? then |branches| == 1 && branches[0].target == target.value && branches[0].insn == insn
            else branches == []
  {
    if target.None? {
      var size: nat :| 0 <= size <= e.insnMax;
      return at + size, [];
    }
    var size: nat :| 1 <= size <= e.insnMax;
    end := at + size;
    var lo: nat :| at <= lo < end;
    var hi: nat :| lo < hi <= end;
    branches := [Branch(target.value, lo, hi, insn)];
  }

  /** Emits the cycle update between two instructions, if there is one. */
  method EmitUpdate(e: Bounds, at: nat, ghost limit: int) returns (end: nat)
    requires at + e.updateMax <= limit
    ensures at <= end <= at + e.updateMax && end <= limit
  {
    var size: nat :| 0 <= size <= e.updateMax;
    end := at + size;
  }

  method EmitGate(e: Bounds, at: nat, ghost limit: int) returns (end: nat)
    requires e.Consistent() && at + e.gateMax <= limit
    ensures at + e.gateMin <= end <= at + e.gateMax && end <= limit
  {
    var size: nat :| e.gateMin <= size <= e.gateMax;
    end := at + size;
  }
}
