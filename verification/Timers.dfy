/** The four hardware timers. A timer counts down: a prescaled one by the cycles that have passed, a
    cascaded one by one each time the timer below it overflows. */
module Timers {
  import opened Basics

  type s32 = x: int | -0x8000_0000 <= x < 0x8000_0000

  /** Truncation to a signed 32-bit number. */
  function S32(x: int): (r: s32)
    ensures -0x8000_0000 <= x < 0x8000_0000 ==> r == x
  {
    (x + 0x8000_0000) % 0x1_0000_0000 - 0x8000_0000
  }

  datatype Status = Inactive | Prescale | Cascade

  /** A timer; `sound` says whether it feeds any sound channel. */
  datatype Timer = Timer(count: s32, reload: nat, prescale: nat, irq: bool, sound: bool, status: Status) {
    /** The count that one overflow adds. */
    function Period(): nat { reload * Scale(prescale) }

    ghost predicate Fits() {
      1 <= reload <= 0x10000 && (prescale == 0 || prescale == 6 || prescale == 8 || prescale == 10)
    }
  }

  /** Two to the power of a prescaler selection. */
  function Scale(prescale: nat): (s: nat)
    ensures 1 <= s <= 1024
  {
    if prescale == 0 then 1 else if prescale == 6 then 64 else if prescale == 8 then 256 else 1024
  }

  lemma PeriodBounds(t: Timer)
    requires t.Fits()
    ensures 1 <= t.Period() <= 0x400_0000
  {
  }

  lemma PeriodIsSetting(t: Timer, u: Timer)
    requires t.(count := 0) == u.(count := 0)
    ensures t.Period() == u.Period() && t.status == u.status
  {
    assert t.(count := 0).reload == u.(count := 0).reload && t.(count := 0).prescale == u.(count := 0).prescale;
  }

  ghost predicate AllFit(ts: seq<Timer>) {
    forall i | 0 <= i < |ts| :: ts[i].Fits()
  }

  // ----------------------------------------------------------------------------------------------
  // One pass over the timers
  // ----------------------------------------------------------------------------------------------

  /** The effect on a timer of an overflow of the one below it. */
  function Carried(t: Timer, carry: bool): Timer {
    if carry && t.status.Cascade? then t.(count := S32(t.count - 1)) else t
  }

  /** A timer's count after `cycles`, before an overflow is made good. */
  function Counted(t: Timer, cycles: nat): s32 {
    if t.status.Prescale? then S32(t.count - cycles) else t.count
  }

  predicate Overflows(t: Timer, cycles: nat) {
    !t.status.Inactive? && Counted(t, cycles) <= 0
  }

  /** How far a pass takes a timer down. */
  function Taken(t: Timer, cycles: nat, carry: bool): nat {
    match t.status
    case Inactive => 0
    case Prescale => cycles
    case Cascade => if carry then 1 else 0
  }

  function Ticked(t: Timer, cycles: nat): Timer {
    if t.status.Inactive? then t
    else if Overflows(t, cycles) then t.(count := S32(Counted(t, cycles) + t.Period()))
    else t.(count := Counted(t, cycles))
  }

  /** The timers after `cycles`, from the lowest up; `carry` says that the timer below overflowed. */
  function Pass(ts: seq<Timer>, cycles: nat, carry: bool): (r: seq<Timer>)
    ensures |r| == |ts|
  {
    if ts == [] then []
    else
      var t := Carried(ts[0], carry);
      [Ticked(t, cycles)] + Pass(ts[1..], cycles, Overflows(t, cycles))
  }

  /** Which of the timers overflow during that pass. */
  function Overflown(ts: seq<Timer>, cycles: nat, carry: bool): (r: seq<bool>)
    ensures |r| == |ts|
  {
    if ts == [] then []
    else
      var t := Carried(ts[0], carry);
      [Overflows(t, cycles)] + Overflown(ts[1..], cycles, Overflows(t, cycles))
  }

  /** Advances one running timer, its overflow included. */
  method UpdateOne(t: Timer, cycles: nat) returns (r: Timer, over: bool)
    requires !t.status.Inactive?
    ensures r == Ticked(t, cycles) && over == Overflows(t, cycles) && r.irq == t.irq
  {
    r := t;
    if !t.status.Cascade? {
      r := r.(count := S32(t.count - cycles));
    }
    over := r.count <= 0;
    if over {
      r := r.(count := S32(r.count + t.Period()));
    }
  }

  /** Advances all timers in place. `raised` has the indices of the timers that ask for an interrupt;
      `stolen` counts cycles used by DMA that an overflow set off. */
  method UpdateTimers(timers: array<Timer>, cycles: nat) returns (raised: set<nat>, stolen: nat)
    modifies timers
    ensures timers[..] == Pass(old(timers[..]), cycles, false)
    ensures forall i: nat :: i in raised <==>
              i < timers.Length && Overflown(old(timers[..]), cycles, false)[i] && old(timers[i]).irq
    ensures stolen > 0 ==> exists i | 0 <= i < timers.Length :: Overflown(old(timers[..]), cycles, false)[i]
  {
    hide Pass, Overflown, S32, Ticked, Overflows, Counted, Carried, Advanced;
    raised, stolen := {}, 0;
    ghost var before := timers[..];
    ghost var over := Overflown(before, cycles, false);
    NothingAdvanced(before, cycles);
    var i := 0;
    while i < timers.Length
      invariant 0 <= i <= timers.Length
      invariant Advanced(before, timers[..], i, cycles)
      invariant forall j: nat :: j in raised <==> j < i && over[j] && before[j].irq
      invariant stolen > 0 ==> exists j | 0 <= j < i :: over[j]
    {
      var t := timers[i];
      ghost var now := timers[..];
      AdvanceOne(before, now, i, cycles);
      if !t.status.Inactive? {
        var overflow;
        t, overflow := UpdateOne(t, cycles);
        timers[i] := t;
        if overflow {
          if t.irq {
            raised := raised + {i};
          }
          if i + 1 < timers.Length {
            timers[i + 1] := Carried(timers[i + 1], true);
          }
          if i < 2 && t.sound {
            stolen := *;
          }
        }
      }
      assert timers[..] == Advance(now, i, cycles);
      i := i + 1;
    }
    AllAdvanced(before, timers[..], cycles);
  }

  /** The first `i` timers have been advanced, and the overflow of the last of them passed on. */
  ghost predicate Advanced(before: seq<Timer>, now: seq<Timer>, i: nat, cycles: nat) {
    && i <= |now| == |before|
    && now[..i] + Pass(now[i..], cycles, false) == Pass(before, cycles, false)
    && Overflown(before, cycles, false)[i..] == Overflown(now[i..], cycles, false)
    && forall j | i <= j < |now| :: now[j].irq == before[j].irq
  }

  ghost function Advance(now: seq<Timer>, i: nat, cycles: nat): seq<Timer>
    requires i < |now|
  {
    var next := now[i := Ticked(now[i], cycles)];
    if i + 1 < |now| then next[i + 1 := Carried(now[i + 1], Overflows(now[i], cycles))] else next
  }

  lemma NothingAdvanced(before: seq<Timer>, cycles: nat)
    ensures Advanced(before, before, 0, cycles)
  {
    assert before[0..] == before;
  }

  lemma AllAdvanced(before: seq<Timer>, now: seq<Timer>, cycles: nat)
    requires Advanced(before, now, |now|, cycles)
    ensures now == Pass(before, cycles, false)
  {
    assert now[..|now|] == now;
  }

  lemma AdvanceOne(before: seq<Timer>, now: seq<Timer>, i: nat, cycles: nat)
    requires i < |now| && Advanced(before, now, i, cycles)
    ensures Advanced(before, Advance(now, i, cycles), i + 1, cycles)
    ensures Overflown(before, cycles, false)[i] == Overflows(now[i], cycles) && now[i].irq == before[i].irq
    ensures now[i].status.Inactive? ==> Ticked(now[i], cycles) == now[i] && !Overflows(now[i], cycles)
    ensures forall t :: Carried(t, false) == t
  {
    hide Pass, Overflown, Ticked, Overflows, Carried, S32;
    var rest, next := now[i..], Advance(now, i, cycles);
    assert rest[1..] == now[i + 1..] && next[..i + 1] == now[..i] + [Ticked(now[i], cycles)];
    assert next[i + 1..] == if i + 1 < |now| then rest[1..][0 := Carried(rest[1], Overflows(rest[0], cycles))] else [];
    RestAdvances(rest, next[i + 1..], cycles);
    var over := Overflown(before, cycles, false);
    assert over[i..][1..] == over[i + 1..] && over[i..][0] == over[i];
    StoppedTimer(now[i], cycles);
    CarriedIrq();
  }

  lemma CarriedIrq()
    ensures forall t, carry :: Carried(t, carry).irq == t.irq
    ensures forall t :: Carried(t, false) == t
  {
  }

  lemma RestAdvances(rest: seq<Timer>, next: seq<Timer>, cycles: nat)
    requires rest != [] && |next| == |rest| - 1
    requires next == if next != [] then rest[1..][0 := Carried(rest[1], Overflows(rest[0], cycles))] else []
    ensures Pass(rest, cycles, false) == [Ticked(rest[0], cycles)] + Pass(next, cycles, false)
    ensures Overflown(rest, cycles, false) == [Overflows(rest[0], cycles)] + Overflown(next, cycles, false)
  {
    if next != [] {
      assert next[1..] == rest[1..][1..];
    }
  }

  lemma StoppedTimer(t: Timer, cycles: nat)
    ensures t.status.Inactive? ==> Ticked(t, cycles) == t && !Overflows(t, cycles)
  {
  }

  // ----------------------------------------------------------------------------------------------
  // Conservation over whole runs
  // ----------------------------------------------------------------------------------------------

  /** The timers after passes of cs[0], cs[1], ... cycles. */
  function Run(ts: seq<Timer>, cs: seq<nat>): (r: seq<Timer>)
    ensures |r| == |ts|
    decreases cs
  {
    if cs == [] then ts else Run(Pass(ts, cs[0], false), cs[1..])
  }

  /** How often timer `i` overflows during a run. */
  function OverflowCount(ts: seq<Timer>, cs: seq<nat>, i: nat): nat
    requires i < |ts|
    decreases cs
  {
    if cs == [] then 0
    else (if Overflown(ts, cs[0], false)[i] then 1 else 0) + OverflowCount(Pass(ts, cs[0], false), cs[1..], i)
  }

  /** What one pass does to timer `i`, seen by itself. */
  lemma {:induction false} PassAt(ts: seq<Timer>, cycles: nat, carry: bool, i: nat)
    requires i < |ts|
    ensures var below := if i == 0 then carry else Overflown(ts, cycles, carry)[i - 1];
            && Pass(ts, cycles, carry)[i] == Ticked(Carried(ts[i], below), cycles)
            && Overflown(ts, cycles, carry)[i] == Overflows(Carried(ts[i], below), cycles)
    decreases i
  {
    if i > 0 {
      PassAt(ts[1..], cycles, Overflows(Carried(ts[0], carry), cycles), i - 1);
    }
  }

  /** A pass changes only counts. */
  lemma PassKeepsSettings(ts: seq<Timer>, cycles: nat, i: nat)
    requires i < |ts|
    ensures Pass(ts, cycles, false)[i].(count := 0) == ts[i].(count := 0)
  {
    PassAt(ts, cycles, false, i);
  }

  /** What drives timer `i` during a run: cycles if it is prescaled, overflows of the timer below if it
      is cascaded. */
  function Driven(ts: seq<Timer>, cs: seq<nat>, i: nat): nat
    requires i < |ts|
  {
    match ts[i].status
    case Inactive => 0
    case Prescale => Sum(cs)
    case Cascade => if i == 0 then 0 else OverflowCount(ts, cs, i - 1)
  }

  lemma Distribute(p: int, a: int, b: int)
    ensures p * (a + b) == p * a + p * b
  {
  }

  lemma ProductAtLeast(p: int, a: int)
    requires p >= 0
    ensures a >= 0 ==> p * a >= 0
    ensures a >= 1 ==> p * a >= p
  {
  }

  lemma S32Congruent(x: int)
    ensures (S32(x) - x) % 0x1_0000_0000 == 0
  {
  }

  lemma CongruentSum(a: int, b: int)
    requires a % 0x1_0000_0000 == 0 && b % 0x1_0000_0000 == 0
    ensures (a + b) % 0x1_0000_0000 == 0
  {
  }

  lemma TickIsConserved(t: Timer, cycles: nat)
    ensures (Ticked(t, cycles).count + (if t.status.Prescale? then cycles else 0) - t.count -
             (if Overflows(t, cycles) then t.Period() else 0)) % 0x1_0000_0000 == 0
  {
    hide S32, Timer.Period;
    S32Congruent(t.count - cycles);
    S32Congruent(Counted(t, cycles) + t.Period());
    CongruentSum(Ticked(t, cycles).count - Counted(t, cycles) - (if Overflows(t, cycles) then t.Period() else 0),
                 Counted(t, cycles) - t.count + (if t.status.Prescale? then cycles else 0));
  }

  lemma StepIsConserved(ts: seq<Timer>, cycles: nat, i: nat)
    requires i < |ts|
    ensures var below := i > 0 && Overflown(ts, cycles, false)[i - 1];
            var over := Overflown(ts, cycles, false)[i];
            (Pass(ts, cycles, false)[i].count + Taken(ts[i], cycles, below) - ts[i].count -
             (if over then ts[i].Period() else 0)) % 0x1_0000_0000 == 0
  {
    hide S32, Pass, Overflown, Ticked, Overflows, Counted, Timer.Period;
    PassAt(ts, cycles, false, i);
    var below := i > 0 && Overflown(ts, cycles, false)[i - 1];
    var t := Carried(ts[i], below);
    PeriodIsSetting(t, ts[i]);
    S32Congruent(ts[i].count - 1);
    TickIsConserved(t, cycles);
    CongruentSum(Ticked(t, cycles).count + (if t.status.Prescale? then cycles else 0) - t.count -
                 (if Overflows(t, cycles) then t.Period() else 0),
                 t.count - ts[i].count + (if below && t.status.Cascade? then 1 else 0));
  }

  /** Nothing is lost: over every run, the count of a timer has gone down by what drove it and up by a
      period per overflow, modulo the width of the count. */
  lemma {:induction false} CountIsConserved(ts: seq<Timer>, cs: seq<nat>, i: nat)
    requires i < |ts|
    ensures (Run(ts, cs)[i].count + Driven(ts, cs, i) - ts[i].count - ts[i].Period() * OverflowCount(ts, cs, i))
            % 0x1_0000_0000 == 0
    decreases cs
  {
    hide S32, Pass, Overflown, Timer.Period, Ticked;
    if cs != [] {
      var next := Pass(ts, cs[0], false);
      var p := ts[i].Period();
      PassKeepsSettings(ts, cs[0], i);
      CountIsConserved(next, cs[1..], i);
      StepIsConserved(ts, cs[0], i);
      Distribute(p, if Overflown(ts, cs[0], false)[i] then 1 else 0, OverflowCount(next, cs[1..], i));
      PeriodIsSetting(next[i], ts[i]);
      assert Driven(ts, cs, i) - Driven(next, cs[1..], i)
          == Taken(ts[i], cs[0], i > 0 && Overflown(ts, cs[0], false)[i - 1]);
      CongruentSum(Run(ts, cs)[i].count + Driven(next, cs[1..], i) - next[i].count -
                   p * OverflowCount(next, cs[1..], i),
                   next[i].count + Driven(ts, cs, i) - Driven(next, cs[1..], i) - ts[i].count -
                   p * (if Overflown(ts, cs[0], false)[i] then 1 else 0));
    }
  }

  /** Every pass ends at most 64 cycles after the next overflow of a prescaled timer. */
  ghost predicate Paced(ts: seq<Timer>, cycles: nat) {
    forall i | 0 <= i < |ts| && ts[i].status.Prescale? :: cycles <= ts[i].count + 64
  }

  ghost predicate PacedRun(ts: seq<Timer>, cs: seq<nat>)
    decreases cs
  {
    cs != [] ==> Paced(ts, cs[0]) && PacedRun(Pass(ts, cs[0], false), cs[1..])
  }

  /** A prescaled timer that one pass cannot run through twice. */
  ghost predicate Slow(t: Timer) {
    t.Fits() && (t.status.Prescale? ==> t.Period() > 64) && 0 < t.count <= t.Period()
  }

  ghost predicate AllSlow(ts: seq<Timer>) {
    forall i | 0 <= i < |ts| :: Slow(ts[i])
  }

  lemma SlowStaysSlow(ts: seq<Timer>, cycles: nat, i: nat)
    requires i < |ts| && Slow(ts[i]) && Paced(ts, cycles)
    ensures Slow(Pass(ts, cycles, false)[i])
    ensures var below := i > 0 && Overflown(ts, cycles, false)[i - 1];
            var over := Overflown(ts, cycles, false)[i];
            Pass(ts, cycles, false)[i].count ==
              ts[i].count - Taken(ts[i], cycles, below) + (if over then ts[i].Period() else 0)
  {
    hide S32, Pass, Overflown;
    PassAt(ts, cycles, false, i);
    PeriodBounds(ts[i]);
    var p := ts[i].Period();
  }

  /** Paced well, a timer whose period exceeds the overshoot never misses an overflow: its count stays
      within one period, and the balance of CountIsConserved is exact. */
  lemma {:induction false} SlowTimersNeverMiss(ts: seq<Timer>, cs: seq<nat>, i: nat)
    requires i < |ts| && Slow(ts[i]) && PacedRun(ts, cs)
    ensures Slow(Run(ts, cs)[i])
    ensures !ts[i].status.Inactive? ==>
              Run(ts, cs)[i].count + Driven(ts, cs, i) == ts[i].count + ts[i].Period() * OverflowCount(ts, cs, i)
    decreases cs
  {
    if cs != [] {
      var next := Pass(ts, cs[0], false);
      PassKeepsSettings(ts, cs[0], i);
      SlowStaysSlow(ts, cs[0], i);
      SlowTimersNeverMiss(next, cs[1..], i);
      Distribute(ts[i].Period(), if Overflown(ts, cs[0], false)[i] then 1 else 0, OverflowCount(next, cs[1..], i));
    }
  }

  lemma {:induction false} RunAppend(ts: seq<Timer>, cs: seq<nat>, c: nat)
    ensures Run(ts, cs + [c]) == Pass(Run(ts, cs), c, false) && Sum(cs + [c]) == Sum(cs) + c
    ensures PacedRun(ts, cs) && Paced(Run(ts, cs), c) ==> PacedRun(ts, cs + [c])
    decreases cs
  {
    hide Pass, Paced;
    if cs == [] {
      assert cs + [c] == [c];
      assert Run(Pass(ts, c, false), []) == Pass(ts, c, false);
    } else {
      assert (cs + [c])[1..] == cs[1..] + [c];
      RunAppend(Pass(ts, cs[0], false), cs[1..], c);
    }
  }

  lemma AllStaySlow(ts: seq<Timer>, cycles: nat)
    requires AllSlow(ts) && Paced(ts, cycles)
    ensures AllSlow(Pass(ts, cycles, false))
  {
    forall i | 0 <= i < |ts|
      ensures Slow(Pass(ts, cycles, false)[i])
    {
      SlowStaysSlow(ts, cycles, i);
    }
  }

  /** The period has to exceed the overshoot: a shorter one can be run through twice in one pass, and the
      pass makes good only one overflow. */
  lemma NeverMissesIff(t: Timer)
    requires t.Fits() && t.status.Prescale? && 0 < t.count <= t.Period()
    ensures (forall cycles: nat | cycles <= t.count + 64 :: Ticked(t, cycles).count > 0) <==> t.Period() > 64
  {
    hide S32;
    PeriodBounds(t);
    var overshoot := t.count + 64;
    assert Ticked(t, overshoot).count == t.Period() - 64;
  }

  // ----------------------------------------------------------------------------------------------
  // Cascaded timers
  // ----------------------------------------------------------------------------------------------

  /** A prescaled timer with cascaded ones on top. */
  ghost predicate IsChain(ts: seq<Timer>) {
    && ts != [] && ts[0].status.Prescale?
    && forall i | 1 <= i < |ts| :: ts[i].status.Cascade?
  }

  /** The number a chain of timers holds, with the lowest timer as the least significant digit. */
  ghost function Value(ts: seq<Timer>): int
    requires ts != []
  {
    if |ts| == 1 then ts[0].count else ts[0].count + ts[0].Period() * (Value(ts[1..]) - 1)
  }

  ghost function ChainPeriod(ts: seq<Timer>): nat
    requires ts != []
  {
    if |ts| == 1 then ts[0].Period() else ts[0].Period() * ChainPeriod(ts[1..])
  }

  lemma {:induction false} ValuePositive(ts: seq<Timer>)
    requires ts != [] && AllSlow(ts)
    ensures Value(ts) >= 1
  {
    if |ts| > 1 {
      ValuePositive(ts[1..]);
      ProductAtLeast(ts[0].Period(), Value(ts[1..]) - 1);
    }
  }

  lemma {:induction false} CascadesRest(ts: seq<Timer>, cycles: nat)
    requires AllSlow(ts) && forall i | 0 <= i < |ts| :: ts[i].status.Cascade?
    ensures Pass(ts, cycles, false) == ts
    ensures forall i | 0 <= i < |ts| :: !Overflown(ts, cycles, false)[i]
  {
    if ts != [] {
      CascadesRest(ts[1..], cycles);
    }
  }

  /** However many timers are cascaded, together they behave as one counter whose period is the product
      of theirs: the number they hold goes down by the cycles passed, and the last timer overflows,
      adding that product, exactly when the number runs out. */
  lemma {:induction false} ChainIsOneCounter(ts: seq<Timer>, cycles: nat, carry: bool)
    requires ts != [] && AllSlow(ts) && Paced(ts, cycles)
    requires forall i | 1 <= i < |ts| :: ts[i].status.Cascade?
    requires !ts[0].status.Inactive?
    ensures var rest := Value(ts) - Taken(ts[0], cycles, carry);
            var last := Overflown(ts, cycles, carry)[|ts| - 1];
            && (last <==> rest <= 0)
            && Value(Pass(ts, cycles, carry)) == if last then rest + ChainPeriod(ts) else rest
  {
    hide S32, Timer.Period, Pass, Overflown, Slow, Carried, Ticked, Overflows, Value, ChainPeriod;
    PassRest(ts, cycles, carry);
    var head := Carried(ts[0], carry);
    TakesOne(ts[0], cycles, carry);
    var next := Pass(ts, cycles, carry);
    ValueSplit(ts);
    ValueSplit(next);
    if |ts| > 1 {
      var above := ts[1..];
      ValuePositive(above);
      var p, v := ts[0].Period(), Value(above);
      ProductAtLeast(p, v - 1);
      assert next[1..] == Pass(above, cycles, Overflows(head, cycles));
      if Overflows(head, cycles) {
        ChainIsOneCounter(above, cycles, true);
        Digits(p, v, Value(Pass(above, cycles, true)), ChainPeriod(above));
      } else {
        CascadesRest(above, cycles);
      }
    }
  }

  lemma TakesOne(t: Timer, cycles: nat, carry: bool)
    requires Slow(t) && !t.status.Inactive? && (t.status.Prescale? ==> cycles <= t.count + 64)
    ensures var rest := t.count - Taken(t, cycles, carry);
            && rest + t.Period() > 0
            && (Overflows(Carried(t, carry), cycles) <==> rest <= 0)
            && Ticked(Carried(t, carry), cycles).count == if rest <= 0 then rest + t.Period() else rest
  {
    hide S32;
    PeriodBounds(t);
  }

  lemma ValueSplit(ts: seq<Timer>)
    requires ts != []
    ensures |ts| == 1 ==> Value(ts) == ts[0].count && ChainPeriod(ts) == ts[0].Period()
    ensures |ts| > 1 ==> Value(ts) == ts[0].count + ts[0].Period() * (Value(ts[1..]) - 1)
    ensures |ts| > 1 ==> ChainPeriod(ts) == ts[0].Period() * ChainPeriod(ts[1..])
  {
    hide S32, Timer.Period;
  }

  lemma PassRest(ts: seq<Timer>, cycles: nat, carry: bool)
    requires ts != []
    ensures var head := Carried(ts[0], carry);
            && Pass(ts, cycles, carry) == [Ticked(head, cycles)] + Pass(ts[1..], cycles, Overflows(head, cycles))
            && Overflown(ts, cycles, carry)
               == [Overflows(head, cycles)] + Overflown(ts[1..], cycles, Overflows(head, cycles))
            && Ticked(head, cycles).Period() == ts[0].Period()
  {
    hide S32, Timer.Period;
    PeriodIsSetting(ts[0], Ticked(Carried(ts[0], carry), cycles));
  }

  /** A borrow from the digits above: `v` is their value before, `v'` after, and `q` their period. */
  lemma Digits(p: int, v: int, v': int, q: int)
    requires v' == v - 1 + (if v <= 1 then q else 0)
    ensures p + p * (v' - 1) == p * (v - 1) + (if v <= 1 then p * q else 0)
  {
    Distribute(p, v - 1, if v <= 1 then q else 0);
    Distribute(p, v' - 1, 1);
  }

  /** One counter of the given period after passes of cs[0], cs[1], ... cycles, and how often it has
      overflowed. */
  function CounterRun(value: int, period: nat, cs: seq<nat>): (r: (int, nat))
    decreases cs
  {
    if cs == [] then (value, 0)
    else
      var rest := value - cs[0];
      var over := rest <= 0;
      var end := CounterRun(if over then rest + period else rest, period, cs[1..]);
      (end.0, end.1 + if over then 1 else 0)
  }

  lemma {:induction false} ChainPeriodIsSetting(ts: seq<Timer>, us: seq<Timer>)
    requires ts != [] && |us| == |ts| && forall i | 0 <= i < |ts| :: us[i].(count := 0) == ts[i].(count := 0)
    ensures ChainPeriod(us) == ChainPeriod(ts)
  {
    hide Timer.Period;
    PeriodIsSetting(us[0], ts[0]);
    if |ts| > 1 {
      ChainPeriodIsSetting(ts[1..], us[1..]);
    }
  }

  lemma ChainStays(ts: seq<Timer>, cycles: nat)
    requires IsChain(ts) && AllSlow(ts) && Paced(ts, cycles)
    ensures IsChain(Pass(ts, cycles, false)) && AllSlow(Pass(ts, cycles, false))
    ensures ChainPeriod(Pass(ts, cycles, false)) == ChainPeriod(ts)
  {
    hide Pass, Slow, Paced, ChainPeriod;
    var us := Pass(ts, cycles, false);
    AllStaySlow(ts, cycles);
    forall i | 0 <= i < |ts|
      ensures us[i].(count := 0) == ts[i].(count := 0) && us[i].status == ts[i].status
    {
      PassKeepsSettings(ts, cycles, i);
      PeriodIsSetting(us[i], ts[i]);
    }
    ChainPeriodIsSetting(ts, us);
  }

  /** Over every paced run a chain of timers is one counter whose period is the product of theirs: the number it
      holds and the overflows of its last timer are those of the counter. */
  lemma {:induction false} ChainRunIsOneCounter(ts: seq<Timer>, cs: seq<nat>)
    requires IsChain(ts) && AllSlow(ts) && PacedRun(ts, cs)
    ensures var r := CounterRun(Value(ts), ChainPeriod(ts), cs);
            Value(Run(ts, cs)) == r.0 && OverflowCount(ts, cs, |ts| - 1) == r.1
    decreases cs
  {
    hide Pass, Overflown, Value, ChainPeriod, Slow, AllSlow, Paced;
    if cs != [] {
      var next := Pass(ts, cs[0], false);
      ChainIsOneCounter(ts, cs[0], false);
      ChainStays(ts, cs[0]);
      ChainRunIsOneCounter(next, cs[1..]);
    }
  }

  /** What such a counter has lost, its overflows have added. */
  lemma {:induction false} CounterIsConserved(value: int, period: nat, cs: seq<nat>)
    ensures var r := CounterRun(value, period, cs); r.0 + Sum(cs) == value + period * r.1
    decreases cs
  {
    if cs != [] {
      var rest := value - cs[0];
      CounterIsConserved(if rest <= 0 then rest + period else rest, period, cs[1..]);
      Distribute(period, if rest <= 0 then 1 else 0,
                 CounterRun(if rest <= 0 then rest + period else rest, period, cs[1..]).1);
    }
  }
}
