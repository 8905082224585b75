/** The event scheduler: video, timers, the serial port and a CPU put to sleep by a DMA share one budget
    of cycles, counted down to whichever event comes first. */
module Scheduler {
  import opened Basics
  import opened Word32
  import opened Timers
  import Serial

  const DRAW := 960
  const BLANK := 272
  const LINE := 1232
  const LINES := 228
  const VISIBLE := 160
  const FRAME := 280896

  /** The most cycles by which the CPU may run over its budget. */
  const OVERSHOOT := 64

  /** Far from where a 32-bit count of cycles overflows, and from the flags of the returned word. */
  const MANY := 0x4000_0000

  datatype Irq = VBlank | HBlank | VCount | TimerIrq(i: nat) | SerialIrq

  /** What keeps the CPU from running. */
  datatype Halt = Active | Halted | Stopped | Sleeping

  /** The display status register: three bits the video unit keeps, three interrupt enables, and the line
      to compare with. */
  datatype DispStat = DispStat(vblank: bool, hblank: bool, matches: bool,
                               vblankIrq: bool, hblankIrq: bool, vcountIrq: bool, setting: nat)

  // ----------------------------------------------------------------------------------------------
  // Video
  // ----------------------------------------------------------------------------------------------

  /** Cycles to the next video event, the line being drawn, the status. */
  datatype Video = Video(count: int, vcount: nat, stat: DispStat)

  /** What an event of the video unit brings about. */
  datatype Event = Event(irqs: set<Irq>, scanline: bool, vblank: bool, frame: bool)

  const NO_EVENT := Event({}, false, false, false)

  /** What every update keeps: an event lies ahead, and the vertical blank bit says which lines are drawn. */
  ghost predicate VideoValid(v: Video) {
    && 1 <= v.count < MANY
    && v.vcount < LINES
    && (v.stat.vblank <==> v.vcount >= VISIBLE)
  }

  /** The cycles of the current phase of a line. */
  function Limit(v: Video): nat { if v.stat.hblank then BLANK else DRAW }

  /** The event ahead is the end of the current phase: no more cycles are left than the phase has. */
  ghost predicate InRange(v: Video) { v.count <= Limit(v) }

  /** How far into the current frame the beam is, in cycles. */
  function Time(v: Video): int {
    v.vcount * LINE + (if v.stat.hblank then LINE else DRAW) - v.count
  }

  lemma TimeBounds(v: Video)
    requires VideoValid(v)
    ensures Time(v) < FRAME && (InRange(v) ==> 0 <= Time(v))
  {
  }

  /** The start of the horizontal blank. */
  function EnterBlank(v: Video): (r: (Video, Event)) {
    (Video(v.count + BLANK, v.vcount, v.stat.(hblank := true)),
     Event(if v.stat.hblankIrq then {HBlank} else {}, !v.stat.vblank, false, false))
  }

  /** The start of the next line. */
  function NextLine(v: Video): (r: (Video, Event)) {
    var line := if v.vcount + 1 == LINES then 0 else v.vcount + 1;
    var starts, ends := v.vcount + 1 == VISIBLE, v.vcount + 1 == LINES;
    var vblank := if starts then true else if ends then false else v.stat.vblank;
    var matches := line == v.stat.setting;
    (Video(v.count + DRAW, line, v.stat.(hblank := false, vblank := vblank, matches := matches)),
     Event((if starts && v.stat.vblankIrq then {VBlank} else {}) +
           (if matches && v.stat.vcountIrq then {VCount} else {}), false, starts, ends))
  }

  /** The video unit after `cycles`, in 32-bit arithmetic. */
  function VideoPass(v: Video, cycles: nat): (Video, Event) {
    var w := v.(count := S32(v.count - cycles));
    if w.count > 0 then (w, NO_EVENT)
    else if !w.stat.hblank then EnterBlank(w)
    else NextLine(w)
  }

  /** Slices that the video unit can take: not far past its event, nor back by more than 32 bits hold. */
  ghost predicate Takes(v: Video, elapsed: int) {
    elapsed <= v.count + OVERSHOOT && v.count - elapsed < MANY
  }

  /** What a pass does with a slice is what it does with the count it leaves. */
  lemma PassCounts(v: Video, elapsed: int)
    requires VideoValid(v) && Takes(v, elapsed)
    ensures S32(v.count - Wrap(elapsed)) == v.count - elapsed
    ensures 0 <= elapsed ==> Wrap(elapsed) == elapsed
    ensures elapsed < 0 ==> Wrap(elapsed) == elapsed + 0x1_0000_0000 >= 0xC000_0000
  {
    hide S32, Wrap;
    WrapSmall(elapsed);
    S32Cancels(v.count, elapsed);
  }

  /** One pass keeps the video unit in step with the cycles accounted for; a slice that goes back, read as
      unsigned, does too. */
  lemma VideoKeepsTime(v: Video, elapsed: int)
    requires VideoValid(v) && Takes(v, elapsed)
    ensures var (w, e) := VideoPass(v, Wrap(elapsed));
            && VideoValid(w)
            && Time(w) + (if e.frame then FRAME else 0) == Time(v) + elapsed
            && (e.frame ==> w.vcount == 0 && !w.stat.hblank && 0 <= Time(w) <= OVERSHOOT)
  {
    hide S32, Wrap;
    PassCounts(v, elapsed);
  }

  /** The count stays within the phase exactly if the CPU does not hand back more cycles than the phase had
      already used when they were planned. */
  lemma RangeSurvivesIff(v: Video, execute: nat, remaining: int)
    requires VideoValid(v) && execute <= v.count && v.count + remaining - execute < MANY
    ensures InRange(VideoPass(v, Wrap(execute - Max(remaining, -OVERSHOOT))).0) <==>
            Max(remaining, -OVERSHOOT) - execute <= Limit(v) - v.count
  {
    hide S32, Wrap;
    PassCounts(v, execute - Max(remaining, -OVERSHOOT));
  }

  /** A slice that goes forward keeps the range. */
  lemma VideoKeepsRange(v: Video, cycles: nat)
    requires VideoValid(v) && Takes(v, cycles) && InRange(v)
    ensures InRange(VideoPass(v, cycles).0)
  {
    hide S32, Wrap;
    PassCounts(v, cycles);
  }

  /** How many lines have been drawn, and how many vertical blanks begun, at a point of a frame. */
  function LinesDrawn(v: Video): nat {
    if v.vcount >= VISIBLE then VISIBLE else v.vcount + (if v.stat.hblank then 1 else 0)
  }

  function BlanksBegun(v: Video): nat { if v.vcount >= VISIBLE then 1 else 0 }

  /** One pass draws at most one line, and none in the vertical blank. */
  lemma VideoKeepsTally(v: Video, cycles: nat)
    requires VideoValid(v) && Takes(v, cycles)
    ensures var (w, e) := VideoPass(v, cycles);
            var done := if e.frame then 1 else 0;
            && VISIBLE * done + LinesDrawn(w) == LinesDrawn(v) + (if e.scanline then 1 else 0)
            && done + BlanksBegun(w) == BlanksBegun(v) + (if e.vblank then 1 else 0)
  {
    hide S32, Wrap;
    PassCounts(v, cycles);
  }

  /** When a pass raises the interrupts of the video unit, told from its registers before and after: when a bit
      that has its interrupt enabled goes from clear to set, and on the first cycle of the line to compare with.
      The enables and that line stay as they are. */
  lemma VideoInterrupts(v: Video, elapsed: int)
    requires VideoValid(v) && Takes(v, elapsed)
    ensures var (w, e) := VideoPass(v, Wrap(elapsed));
            && (VBlank in e.irqs <==> v.stat.vblankIrq && !v.stat.vblank && w.stat.vblank)
            && (HBlank in e.irqs <==> v.stat.hblankIrq && !v.stat.hblank && w.stat.hblank)
            && (VCount in e.irqs <==> v.stat.vcountIrq && w.vcount != v.vcount && w.vcount == v.stat.setting)
            && e.irqs <= {VBlank, HBlank, VCount}
            && w.stat.matches == (if w.vcount != v.vcount then w.vcount == v.stat.setting else v.stat.matches)
            && w.stat == v.stat.(vblank := w.stat.vblank, hblank := w.stat.hblank, matches := w.stat.matches)
            && (w.vcount != v.vcount <==> v.stat.hblank && !w.stat.hblank)
            && (w.vcount != v.vcount ==> w.vcount == (v.vcount + 1) % LINES)
            && (e.vblank <==> !v.stat.vblank && w.stat.vblank) && (e.frame <==> v.stat.vblank && !w.stat.vblank)
            && (e.scanline <==> !v.stat.hblank && w.stat.hblank && !v.stat.vblank)
  {
    hide S32, Wrap;
    PassCounts(v, elapsed);
  }

  /** How many horizontal blanks have begun at a point of a frame, and whether the line to compare with has. */
  function BlanksPassed(v: Video): nat { v.vcount + (if v.stat.hblank then 1 else 0) }

  function MatchesPassed(v: Video): nat { if v.vcount >= v.stat.setting then 1 else 0 }

  /** Frames, lines drawn and vertical blanks of a run of passes, and interrupts of each kind. */
  datatype Tally = Tally(frames: nat, lines: nat, blanks: nat, vblankIrqs: nat, hblankIrqs: nat, vcountIrqs: nat)

  function One(b: bool): nat { if b then 1 else 0 }

  function VideoRun(v: Video, cs: seq<nat>): (Video, Tally)
    decreases cs
  {
    if cs == [] then (v, Tally(0, 0, 0, 0, 0, 0))
    else
      var (w, e) := VideoPass(v, cs[0]);
      var (x, t) := VideoRun(w, cs[1..]);
      (x, Tally(t.frames + One(e.frame), t.lines + One(e.scanline), t.blanks + One(e.vblank),
                t.vblankIrqs + One(VBlank in e.irqs), t.hblankIrqs + One(HBlank in e.irqs),
                t.vcountIrqs + One(VCount in e.irqs)))
  }

  /** With an interrupt enabled, one pass raises it as often as what it tells of begins, and otherwise never. */
  lemma VideoKeepsCounts(v: Video, cycles: nat)
    requires VideoValid(v) && Takes(v, cycles)
    ensures var (w, e) := VideoPass(v, cycles);
            && (if v.stat.vblankIrq then One(e.frame) + BlanksBegun(w) == BlanksBegun(v) + One(VBlank in e.irqs)
                else VBlank !in e.irqs)
            && (if v.stat.hblankIrq then
                  LINES * One(e.frame) + BlanksPassed(w) == BlanksPassed(v) + One(HBlank in e.irqs)
                else HBlank !in e.irqs)
            && (if v.stat.vcountIrq && v.stat.setting < LINES then
                  One(e.frame) + MatchesPassed(w) == MatchesPassed(v) + One(VCount in e.irqs)
                else VCount !in e.irqs)
            && w.stat.vblankIrq == v.stat.vblankIrq && w.stat.hblankIrq == v.stat.hblankIrq
            && w.stat.vcountIrq == v.stat.vcountIrq && w.stat.setting == v.stat.setting
  {
    hide S32, Wrap;
    PassCounts(v, cycles);
    VideoInterrupts(v, cycles);
  }

  ghost predicate VideoPaced(v: Video, cs: seq<nat>)
    decreases cs
  {
    cs != [] ==> cs[0] <= v.count + OVERSHOOT && VideoPaced(VideoPass(v, cs[0]).0, cs[1..])
  }

  /** Over every paced run, whatever the slices: time is conserved to the cycle, and each frame draws
      160 lines and has one vertical blank. */
  lemma {:induction false} VideoNeverDrifts(v: Video, cs: seq<nat>)
    requires VideoValid(v) && VideoPaced(v, cs)
    ensures var (w, t) := VideoRun(v, cs);
            && VideoValid(w) && (InRange(v) ==> InRange(w))
            && FRAME * t.frames + Time(w) == Time(v) + Sum(cs)
            && VISIBLE * t.frames + LinesDrawn(w) == LinesDrawn(v) + t.lines
            && t.frames + BlanksBegun(w) == BlanksBegun(v) + t.blanks
    decreases cs
  {
    hide VideoPass, Time, LinesDrawn, BlanksBegun, S32, Wrap, Limit;
    if cs != [] {
      PassCounts(v, cs[0]);
      if InRange(v) {
        VideoKeepsRange(v, cs[0]);
      }
      VideoKeepsTime(v, cs[0]);
      VideoKeepsTally(v, cs[0]);
      VideoNeverDrifts(VideoPass(v, cs[0]).0, cs[1..]);
    }
  }

  /** Over every paced run an enabled interrupt of the vertical blank comes once a frame, that of the horizontal
      blank once a line, the invisible ones included, and that of the line comparison once a frame, if there is such
      a line; and none comes that is not enabled. */
  lemma {:induction false} InterruptsOncePerFrame(v: Video, cs: seq<nat>)
    requires VideoValid(v) && VideoPaced(v, cs)
    ensures var (w, t) := VideoRun(v, cs);
            && (if v.stat.vblankIrq then
                  t.vblankIrqs == t.blanks && t.frames + BlanksBegun(w) == BlanksBegun(v) + t.blanks
                else t.vblankIrqs == 0)
            && (if v.stat.hblankIrq then LINES * t.frames + BlanksPassed(w) == BlanksPassed(v) + t.hblankIrqs
                else t.hblankIrqs == 0)
            && (if v.stat.vcountIrq && v.stat.setting < LINES then
                  t.frames + MatchesPassed(w) == MatchesPassed(v) + t.vcountIrqs
                else t.vcountIrqs == 0)
    decreases cs
  {
    hide VideoPass, Time, BlanksBegun, BlanksPassed, MatchesPassed, S32, Wrap;
    if cs != [] {
      PassCounts(v, cs[0]);
      VideoKeepsTime(v, cs[0]);
      VideoKeepsTally(v, cs[0]);
      VideoKeepsCounts(v, cs[0]);
      InterruptsOncePerFrame(VideoPass(v, cs[0]).0, cs[1..]);
    }
  }

  /** The cycles the update accounts for, and what they leave of the video count, in 32-bit arithmetic:
      time goes forward exactly when the caller has no more cycles left than it was given. A timer started
      in the middle of a slice lowers the cycles to run under the feet of a CPU that still has more left;
      if that CPU halts before it has run them, the video count goes up instead of down. */
  lemma TimeGoesForwardIff(execute: nat, remaining: int, count: s32)
    requires 1 <= count < MANY && execute <= count && count + remaining - execute < MANY
    ensures S32(count - Wrap(execute - Max(remaining, -OVERSHOOT))) <= count <==> remaining <= execute
  {
    hide S32, Wrap;
    var cycles := execute - Max(remaining, -OVERSHOOT);
    WrapSmall(cycles);
    S32Cancels(count, cycles);
  }

  lemma WrapSmall(x: int)
    requires -0x8000_0000 <= x < 0x8000_0000
    ensures Wrap(x) == if x < 0 then x + 0x1_0000_0000 else x
  {
  }

  lemma S32Cancels(count: s32, cycles: int)
    requires -0x8000_0000 <= count - cycles < 0x8000_0000
    ensures S32(count - cycles) == count - cycles && S32(count - cycles - 0x1_0000_0000) == count - cycles
  {
  }

  // ----------------------------------------------------------------------------------------------
  // The returned word
  // ----------------------------------------------------------------------------------------------

  function Packed(cycles: nat, jumped: bool, frame: bool): u32
    requires cycles < MANY
  {
    cycles + (if jumped then 0x4000_0000 else 0) + (if frame then 0x8000_0000 else 0)
  }

  function CyclesToRun(word: u32): nat { word % 0x8000 }

  predicate ChangedPc(word: u32) { word / 0x4000_0000 % 2 == 1 }

  predicate CompletedFrame(word: u32) { word / 0x8000_0000 % 2 == 1 }

  /** The flags are read back, and the cycles to run up to their fifteen bits. */
  lemma WordDecodes(cycles: nat, jumped: bool, frame: bool)
    requires cycles < MANY
    ensures CyclesToRun(Packed(cycles, jumped, frame)) == cycles % 0x8000
    ensures ChangedPc(Packed(cycles, jumped, frame)) <==> jumped
    ensures CompletedFrame(Packed(cycles, jumped, frame)) <==> frame
  {
  }

  // ----------------------------------------------------------------------------------------------
  // What makes the halt loop end
  // ----------------------------------------------------------------------------------------------

  /** How far running prescaled timers have to go up before they all count again. */
  ghost function Debt(ts: seq<Timer>): nat {
    if ts == [] then 0
    else (if ts[0].status.Prescale? && ts[0].count < 1 then 1 - ts[0].count else 0) + Debt(ts[1..])
  }

  /** A prescaled timer at zero leaves no cycles to run. */
  ghost predicate SomeAtZero(ts: seq<Timer>) {
    exists i :: 0 <= i < |ts| && ts[i].status.Prescale? && ts[i].count == 0
  }

  /** A pass of no cycles pays off some of the debt. */
  lemma {:induction false} DebtFalls(ts: seq<Timer>, carry: bool)
    requires AllFit(ts)
    ensures Debt(Pass(ts, 0, carry)) <= Debt(ts)
    ensures SomeAtZero(ts) ==> Debt(Pass(ts, 0, carry)) < Debt(ts)
  {
    if ts != [] {
      hide S32;
      var t := Carried(ts[0], carry);
      PeriodBounds(ts[0]);
      PeriodIsSetting(t, ts[0]);
      DebtFalls(ts[1..], Overflows(t, 0));
      if SomeAtZero(ts) && !(ts[0].status.Prescale? && ts[0].count == 0) {
        var i :| 0 <= i < |ts| && ts[i].status.Prescale? && ts[i].count == 0;
        assert ts[1..][i - 1] == ts[i];
      }
    }
  }

  lemma FitStays(ts: seq<Timer>, cycles: nat)
    requires AllFit(ts)
    ensures AllFit(Pass(ts, cycles, false))
  {
    forall i | 0 <= i < |ts|
      ensures Pass(ts, cycles, false)[i].Fits()
    {
      PassKeepsSettings(ts, cycles, i);
      var t, u := ts[i], Pass(ts, cycles, false)[i];
      assert t.(count := 0).reload == u.(count := 0).reload && t.(count := 0).prescale == u.(count := 0).prescale;
    }
  }

  // ----------------------------------------------------------------------------------------------
  // The machine
  // ----------------------------------------------------------------------------------------------

  /** Running prescaled timers bound the cycles to run, unless their count has gone negative. */
  ghost predicate Bounded(ts: seq<Timer>, cycles: nat) {
    forall i | 0 <= i < |ts| && ts[i].status.Prescale? && ts[i].count >= 0 :: cycles <= ts[i].count
  }

  const PRESCALES: seq<nat> := [0, 6, 8, 10]

  /** A timer just started: one full period to go. */
  function Started(t: Timer, cascade: bool, selection: nat, irq: bool): Timer
    requires selection < 4 && 1 <= t.reload <= 0x10000
  {
    var u := t.(status := if cascade then Cascade else Prescale, prescale := PRESCALES[selection], irq := irq);
    assert u.Fits();
    PeriodBounds(u);
    u.(count := u.Period())
  }

  /** The cycles for one step of a timer, by the two lowest bits of its control register. */
  const STEPS: seq<nat> := [1, 64, 256, 1024]

  /** A timer just started overflows when its steps have gone, each of as many cycles as were selected; a cascaded
      one when as many have been carried into it. The count in cycles is a shift of the one in steps. */
  lemma StartedRunsOut(t: Timer, cascade: bool, selection: nat, irq: bool, cycles: nat)
    requires selection < 4 && 1 <= t.reload <= 0x10000 && cycles < MANY
    ensures var u := Started(t, cascade, selection, irq);
            && u.count == u.Period() == t.reload * STEPS[selection] == t.reload * Pow2(u.prescale)
            && (Overflows(u, cycles) <==> !cascade && cycles >= t.reload * STEPS[selection])
            && (!cascade ==> (Ticked(u, cycles).count == if cycles >= u.Period() then 2 * u.Period() - cycles
                                                         else u.Period() - cycles))
            && Taken(u, cycles, true) == if cascade then 1 else cycles
  {
    hide S32;
    var u := Started(t, cascade, selection, irq);
    PeriodBounds(u);
    ShiftIsScale(selection);
  }

  lemma ShiftIsScale(selection: nat)
    requires selection < 4
    ensures Scale(PRESCALES[selection]) == STEPS[selection] == Pow2(PRESCALES[selection])
  {
    assert Pow2(6) == 64 && Pow2(8) == 256 && Pow2(10) == 1024 by {
      assert Pow2(4) == 16 && Pow2(6) == 4 * Pow2(4);
      assert Pow2(8) == 4 * Pow2(6) && Pow2(10) == 4 * Pow2(8);
    }
  }

  /** The interrupt of the serial port, if it has asked for any. */
  function SerialIrqs(asked: bool): set<Irq> { if asked then {SerialIrq} else {} }

  /** All interrupts that one pass raises. */
  function Raised(due: set<nat>, serialIrq: bool, event: Event): set<Irq> {
    (set i | i in due :: TimerIrq(i)) + SerialIrqs(serialIrq) + event.irqs
  }

  /** The interrupts that the timers ask for when they overflow in a pass. */
  function TimerIrqs(ts: seq<Timer>, cycles: nat): set<Irq> {
    set i | 0 <= i < |ts| && Overflown(ts, cycles, false)[i] && ts[i].irq :: TimerIrq(i)
  }

  /** All interrupts of the video unit and the timers over the slices of an update. */
  function RunIrqs(ts: seq<Timer>, v: Video, slices: seq<nat>): set<Irq>
    decreases slices
  {
    if slices == [] then {}
    else
      var (w, e) := VideoPass(v, slices[0]);
      TimerIrqs(ts, slices[0]) + e.irqs + RunIrqs(Pass(ts, slices[0], false), w, slices[1..])
  }

  lemma {:induction false} RunIrqsAppend(ts: seq<Timer>, v: Video, slices: seq<nat>, c: nat)
    ensures RunIrqs(ts, v, slices + [c]) ==
            RunIrqs(ts, v, slices) + TimerIrqs(Run(ts, slices), c) + VideoPass(VideoRun(v, slices).0, c).1.irqs
    decreases slices
  {
    hide VideoPass, Pass, TimerIrqs;
    if slices == [] {
      assert slices + [c] == [c] && [c][1..] == [];
    } else {
      assert (slices + [c])[1..] == slices[1..] + [c] && (slices + [c])[0] == slices[0];
      RunIrqsAppend(Pass(ts, slices[0], false), VideoPass(v, slices[0]).0, slices[1..], c);
    }
  }

  /** The flags are those from before, the interrupts of these slices, and that of the serial port if it asked. */
  ghost predicate FlaggedBy(before: set<Irq>, ts: seq<Timer>, v: Video, slices: seq<nat>, asked: bool, now: set<Irq>) {
    now == before + RunIrqs(ts, v, slices) + SerialIrqs(asked)
  }

  /** So they are after one more slice. */
  lemma FlagsGrow(before: set<Irq>, ts: seq<Timer>, v: Video, slices: seq<nat>, asked: bool, now: set<Irq>, c: nat,
                  due: set<nat>, serialIrq: bool, event: Event)
    requires FlaggedBy(before, ts, v, slices, asked, now) && event == VideoPass(VideoRun(v, slices).0, c).1
    requires var us := Run(ts, slices);
             forall i: nat :: i in due <==> i < |us| && Overflown(us, c, false)[i] && us[i].irq
    ensures FlaggedBy(before, ts, v, slices + [c], asked || serialIrq, now + Raised(due, serialIrq, event))
  {
    hide VideoPass, Pass, Overflown, RunIrqs;
    RunIrqsAppend(ts, v, slices, c);
    DueIrqs(Run(ts, slices), c, due);
    hide TimerIrqs;
    assert SerialIrqs(asked || serialIrq) == SerialIrqs(asked) + SerialIrqs(serialIrq);
  }

  lemma DueIrqs(ts: seq<Timer>, c: nat, due: set<nat>)
    requires forall i: nat :: i in due <==> i < |ts| && Overflown(ts, c, false)[i] && ts[i].irq
    ensures TimerIrqs(ts, c) == set i | i in due :: TimerIrq(i)
  {
    hide Overflown;
  }

  lemma WrapAdds(a: int, b: int)
    ensures Plus(Wrap(a), b) == Wrap(a + b) && Plus(Wrap(a), Wrap(b)) == Wrap(a + b)
  {
  }

  /** The timers after the slices of an update; if all slices go forward, slow timers never miss an
      overflow. */
  ghost predicate Sliced(before: seq<Timer>, slices: seq<nat>, now: seq<Timer>, forward: bool) {
    && now == Run(before, slices)
    && (forward && AllSlow(before) ==> PacedRun(before, slices) && AllSlow(now))
  }

  /** The video unit after those slices. */
  ghost predicate VideoSliced(before: Video, slices: seq<nat>, now: Video, forward: bool) {
    now == VideoRun(before, slices).0 && (forward ==> VideoPaced(before, slices))
  }

  lemma SlicedIs(before: seq<Timer>, slices: seq<nat>, now: seq<Timer>, screen: Video, w: Video, forward: bool)
    requires Sliced(before, slices, now, forward) && VideoSliced(screen, slices, w, forward)
    ensures now == Run(before, slices) && w == VideoRun(screen, slices).0
  {
  }

  lemma NoSlices(ts: seq<Timer>, v: Video, forward: bool)
    ensures Sliced(ts, [], ts, forward) && VideoSliced(v, [], v, forward)
    ensures forall flags: set<Irq> :: FlaggedBy(flags, ts, v, [], false, flags)
  {
  }

  lemma {:induction false} VideoSlicesGrow(before: Video, slices: seq<nat>, now: Video, cycles: nat,
                                             forward: bool)
    requires VideoSliced(before, slices, now, forward) && (forward ==> cycles <= now.count + OVERSHOOT)
    ensures VideoSliced(before, slices + [cycles], VideoPass(now, cycles).0, forward)
    decreases slices
  {
    hide VideoPass;
    if slices == [] {
      var next := VideoPass(now, cycles).0;
      assert slices + [cycles] == [cycles] && [cycles][1..] == [];
      assert VideoRun(next, []).0 == next && VideoPaced(next, []);
      assert forward ==> VideoPaced(now, [cycles]);
      assert VideoRun(now, [cycles]).0 == VideoRun(next, [cycles][1..]).0;
    } else {
      assert (slices + [cycles])[1..] == slices[1..] + [cycles];
      VideoSlicesGrow(VideoPass(before, slices[0]).0, slices[1..], now, cycles, forward);
    }
  }

  lemma SlicesGrow(before: seq<Timer>, slices: seq<nat>, now: seq<Timer>, planned: nat, cycles: nat,
                   forward: bool)
    requires Sliced(before, slices, now, forward) && Bounded(now, planned)
    requires forward ==> cycles <= planned + OVERSHOOT
    ensures Sliced(before, slices + [cycles], Pass(now, cycles, false), forward)
    ensures Sum(slices + [cycles]) == Sum(slices) + cycles
  {
    RunAppend(before, slices, cycles);
    if forward && AllSlow(before) {
      assert Paced(now, cycles);
      AllStaySlow(now, cycles);
    }
  }

  /** A timer after a reset. */
  const STOPPED := Timer(0x10000, 0x10000, 0, false, false, Inactive)

  /** The video unit after a reset. */
  const TOP := Video(DRAW, 0, DispStat(false, false, false, false, false, false, 0))

  class Machine {
    const timers: array<Timer>
    const serial: Serial.SerialPort

    var videoCount: int
    var executeCycles: nat
    var cpuTicks: u32
    var frameCounter: u32
    var vcount: nat
    var dispstat: DispStat

    var halt: Halt
    // Cycles left to sleep; the top bit marks a sleep that has not begun to count.
    var sleep: u32

    // Interrupts enabled and flagged, the master switch, and the mask bit of the CPU.
    var enabled: set<Irq>
    var flagged: set<Irq>
    var master: bool
    var masked: bool

    // Cycles accounted for and frames completed since the start, when the current sleep ends, and
    // interrupts taken.
    ghost var accounted: int
    ghost var frames: nat
    ghost var wakeAt: int
    ghost var taken: nat

    // The balance of cycles: those last planned and granted to the CPU; all that it has run, those withheld
    // from it, those that passed without it, and those that no account was taken of.
    ghost var planned: nat
    ghost var granted: nat
    ghost var executed: int
    ghost var withheld: int
    ghost var idle: nat
    ghost var dropped: nat

    /** The machine after a reset. */
    constructor (device: Serial.Device)
      ensures Valid() && fresh(timers) && fresh(serial) && halt.Active?
      ensures accounted == 0 && frames == 0 && executeCycles == DRAW && Screen() == TOP
      ensures executed == 0 && withheld == 0 && idle == 0 && dropped == 0
      ensures this.serial.irqCycles == 0 && this.serial.device == device
      ensures planned == granted == DRAW && timers[..] == seq(4, _ => STOPPED) && SerialPlanned()
    {
      timers := new Timer[4](_ => STOPPED);
      serial := new Serial.SerialPort(device);
      videoCount, executeCycles, cpuTicks, frameCounter, vcount := 960, 960, 0, 0, 0;
      dispstat := DispStat(false, false, false, false, false, false, 0);
      halt, sleep := Active, 0;
      enabled, flagged, master, masked := {}, {}, false, false;
      accounted, frames, wakeAt, taken := 0, 0, 0, 0;
      planned, granted, executed, withheld, idle, dropped := 960, 960, 0, 0, 0, 0;
    }

    function Screen(): Video
      reads `videoCount, `vcount, `dispstat
    {
      Video(videoCount, vcount, dispstat)
    }

    predicate Marked()
      reads `sleep
    {
      sleep >= 0x8000_0000
    }

    /** Time is accounted for exactly: frames completed, and the position of the beam in this one. */
    ghost predicate InStep()
      reads `videoCount, `vcount, `dispstat, `accounted, `frames, `cpuTicks, `frameCounter
    {
      && VideoValid(Screen())
      && accounted == FRAME * frames + Time(Screen())
      && cpuTicks == Wrap(accounted) && frameCounter == Wrap(frames)
    }

    lemma Drawing()
      requires InStep()
      ensures VideoValid(Screen())
    {
    }

    lemma FrameGoesOn()
      requires InStep()
      ensures Left() > 0
    {
      TimeBounds(Screen());
    }

    /** A sleep that has begun ends on time. */
    ghost predicate SleepsOnTime()
      reads `halt, `sleep, `wakeAt, `accounted
    {
      halt.Sleeping? ==> sleep != 0 && sleep != 0x8000_0000 && (!Marked() ==> sleep == wakeAt - accounted)
    }

    /** The CPU may run up to the next video event, the end of its sleep, or the next timer event. */
    ghost predicate Planned()
      reads `executeCycles, `videoCount, `halt, `sleep, timers
    {
      && executeCycles <= videoCount
      && (halt.Sleeping? && !Marked() ==> executeCycles <= sleep)
      && Bounded(timers[..], executeCycles)
    }

    /** The cycles to run are those to one of the events. */
    ghost predicate AtEvent()
      reads `executeCycles, `videoCount, `halt, `sleep, timers, serial
    {
      || executeCycles == videoCount
      || (serial.irqCycles != 0 && executeCycles == serial.irqCycles)
      || (halt.Sleeping? && executeCycles == sleep)
      || exists k | 0 <= k < |timers[..]| :: timers[..][k].status.Prescale? && timers[..][k].count == executeCycles
    }

    /** Every cycle accounted for was run by the CPU, withheld from it or idle; some of those were dropped. */
    ghost predicate Balanced()
      reads `accounted, `planned, `granted, `executed, `withheld, `idle, `dropped, `executeCycles
    {
      && accounted == executed + withheld + idle - dropped
      && executeCycles <= planned && granted <= planned
    }

    ghost predicate Parts()
      reads timers, serial
    {
      timers.Length == 4 && AllFit(timers[..]) && serial.Valid()
    }

    lemma PlanIsTaken()
      requires InStep() && Planned()
      ensures Takes(Screen(), executeCycles) && executeCycles <= Screen().count + OVERSHOOT
      ensures Bounded(timers[..], executeCycles) && (halt.Sleeping? && !Marked() ==> executeCycles <= sleep)
    {
    }

    lemma FourTimers()
      requires Parts()
      ensures timers.Length == 4
    {
    }

    lemma TimersFit()
      requires Parts()
      ensures AllFit(timers[..])
    {
    }

    ghost predicate Valid()
      reads this, timers, serial
    {
      Parts() && InStep() && SleepsOnTime() && Planned() && Balanced()
    }

    // --------------------------------------------------------------------------------------------
    // Steps of the guest between updates
    // --------------------------------------------------------------------------------------------

    /** The guest writes a timer's reload register. */
    method SetReload(i: nat, value: nat)
      requires Valid() && i < 4 && value < 0x10000
      modifies timers
      ensures Valid()
      ensures timers[..] == old(timers[..])[i := old(timers[i]).(reload := 0x10000 - value)]
    {
      timers[i] := timers[i].(reload := 0x10000 - value);
    }

    /** The guest starts or stops a timer. A timer started lowers the cycles to run if it is due
        earlier. */
    method TriggerTimer(i: nat, on: bool, cascade: bool, selection: nat, irq: bool)
      requires Valid() && i < 4 && selection < 4
      modifies timers, `executeCycles
      ensures Valid() && executeCycles <= old(executeCycles)
      ensures !on ==> timers[..] == old(timers[..])[i := old(timers[i]).(status := Inactive)]
      ensures on && !old(timers[i]).status.Inactive? ==> timers[..] == old(timers[..])
      ensures on && old(timers[i]).status.Inactive? ==>
                && timers[..] == old(timers[..])[i := Started(old(timers[i]), cascade, selection, irq)]
                && executeCycles == Min(old(executeCycles), timers[i].Period())
    {
      hide S32, InStep, SleepsOnTime;
      if on {
        if timers[i].status.Inactive? {
          var t := timers[i].(status := if cascade then Cascade else Prescale,
                              prescale := PRESCALES[selection], irq := irq);
          PeriodBounds(t);
          timers[i] := t.(count := t.Period());
          if t.Period() < executeCycles {
            executeCycles := t.Period();
          }
        }
      } else {
        if !timers[i].status.Inactive? {
          timers[i] := timers[i].(status := Inactive);
        }
      }
    }

    /** The guest writes the display status register; the bits of the video unit stay. */
    method WriteDispStat(value: DispStat)
      requires Valid()
      modifies `dispstat
      ensures Valid() && Time(Screen()) == old(Time(Screen())) && Limit(Screen()) == old(Limit(Screen()))
      ensures dispstat == DispStat(old(dispstat).vblank, old(dispstat).hblank, old(dispstat).matches,
                                   value.vblankIrq, value.hblankIrq, value.vcountIrq, value.setting)
    {
      dispstat := value.(vblank := dispstat.vblank, hblank := dispstat.hblank, matches := dispstat.matches);
    }

    /** A DMA that the running CPU sets off puts it to sleep. */
    method Sleep(cycles: nat)
      requires Valid() && 0 < cycles < 0x8000_0000
      modifies `halt, `sleep
      ensures Valid() && halt.Sleeping? && Marked() && sleep == 0x8000_0000 + cycles
    {
      halt, sleep := Sleeping, 0x8000_0000 + cycles;
    }

    /** The guest halts or stops the CPU until an interrupt. */
    method HaltCpu(stop: bool)
      requires Valid()
      modifies `halt
      ensures Valid() && halt == if stop then Stopped else Halted
    {
      halt := if stop then Stopped else Halted;
    }

    // --------------------------------------------------------------------------------------------
    // The update
    // --------------------------------------------------------------------------------------------

    /** The serial port's countdown has advanced, unless the device held it up; and if a transfer completed,
        how late it was. An interrupt is raised if the device or a transfer asked for one. */
    twostate predicate SerialAdvanced(cycles: nat, held: bool, irq: bool)
      reads serial
    {
      && Serial.Leads(old(serial.Records()), serial.Records())
      && serial.raised == old(serial.raised) + (if irq then 1 else 0)
      && serial.irqCycles == (if held then old(serial.irqCycles) else Max(old(serial.irqCycles) - cycles, 0))
      && serial.completions >= old(serial.completions)
      && if serial.completions > old(serial.completions) then
        old(serial.irqCycles) != 0 && serial.late == cycles - old(serial.irqCycles)
      else serial.late == old(serial.late)
    }

    /** Advances timers, serial port and video by `cycles`, which is what `elapsed` is as an unsigned number.
        `polled` is what polling the serial device says; `due` has the timers that ask for an interrupt. */
    method Advance(cycles: u32, ghost elapsed: int, polled: bool)
      returns (due: set<nat>, serialIrq: bool, event: Event, stolen: nat)
      requires Parts() && InStep() && cycles == Wrap(elapsed) && Takes(Screen(), elapsed)
      modifies timers, serial, `videoCount, `vcount, `dispstat, `cpuTicks, `frameCounter, `accounted, `frames
      ensures Parts() && InStep()
      ensures timers[..] == Pass(old(timers[..]), cycles, false)
      ensures (Screen(), event) == VideoPass(old(Screen()), cycles)
      ensures forall i: nat :: i in due <==> i < 4 && Overflown(old(timers[..]), cycles, false)[i] && old(timers[i]).irq
      ensures accounted == old(accounted) + elapsed && frames == old(frames) + (if event.frame then 1 else 0)
      ensures event.frame ==> FRAME * frames <= accounted <= FRAME * frames + OVERSHOOT
      ensures SerialAdvanced(cycles, old(serial.device).Polled() && polled, serialIrq)
    {
      hide Pass, Overflown, AllFit, VideoPass, Time, VideoValid;
      FitStays(timers[..], cycles);
      due, stolen := UpdateTimers(timers, cycles);
      serialIrq := serial.Update(cycles, polled);
      event := CountVideo(cycles, elapsed);
      if event.scanline || event.vblank {
        stolen := *;
      }
    }

    /** Accounts for `cycles` of video. */
    method CountVideo(cycles: u32, ghost elapsed: int) returns (event: Event)
      requires InStep() && cycles == Wrap(elapsed) && Takes(Screen(), elapsed)
      modifies `videoCount, `vcount, `dispstat, `cpuTicks, `frameCounter, `accounted, `frames
      ensures InStep() && (Screen(), event) == VideoPass(old(Screen()), cycles)
      ensures accounted == old(accounted) + elapsed && frames == old(frames) + (if event.frame then 1 else 0)
      ensures event.frame ==> FRAME * frames <= accounted <= FRAME * frames + OVERSHOOT
    {
      hide VideoPass, Time, Wrap, Plus;
      ghost var before := Screen();
      WrapAdds(accounted, elapsed);
      WrapAdds(frames, 1);
      VideoKeepsTime(before, elapsed);
      TimeBounds(before);
      cpuTicks := Plus(cpuTicks, cycles);
      event := AdvanceVideo(cycles);
      if event.frame {
        frameCounter := Plus(frameCounter, 1);
        frames := frames + 1;
      }
      accounted := accounted + elapsed;
      TimeBounds(Screen());
    }

    /** Counts the video unit down by `cycles`, and moves on to its next phase when they are used up. */
    method AdvanceVideo(cycles: nat) returns (event: Event)
      requires vcount < LINES
      modifies `videoCount, `vcount, `dispstat
      ensures (Screen(), event) == VideoPass(old(Screen()), cycles)
    {
      event := NO_EVENT;
      videoCount := S32(videoCount - cycles);
      if videoCount <= 0 {
        if !dispstat.hblank {
          dispstat := dispstat.(hblank := true);
          videoCount := videoCount + 272;
          event := event.(scanline := !dispstat.vblank);
          if dispstat.hblankIrq {
            event := event.(irqs := event.irqs + {HBlank});
          }
        } else {
          videoCount := videoCount + 960;
          dispstat := dispstat.(hblank := false);
          vcount := vcount + 1;
          if vcount == 160 {
            dispstat := dispstat.(vblank := true);
            if dispstat.vblankIrq {
              event := event.(irqs := event.irqs + {VBlank});
            }
            event := event.(vblank := true);
          } else if vcount == 228 {
            vcount := 0;
            dispstat := dispstat.(vblank := false);
            event := event.(frame := true);
          }
          if vcount == dispstat.setting {
            dispstat := dispstat.(matches := true);
            if dispstat.vcountIrq {
              event := event.(irqs := event.irqs + {VCount});
            }
          } else {
            dispstat := dispstat.(matches := false);
          }
        }
      }
      assert event.irqs == VideoPass(old(Screen()), cycles).1.irqs;
    }

    /** Flags interrupts, and takes one if the CPU lets it. */
    method RaiseInterrupts(raised: set<Irq>) returns (jumped: bool)
      modifies `flagged, `masked, `halt, `taken
      ensures flagged == old(flagged) + raised
      ensures jumped <==> !old(masked) && master && enabled * flagged != {}
      ensures masked == (old(masked) || jumped) && taken == old(taken) + (if jumped then 1 else 0)
      ensures halt == if jumped && !old(halt).Sleeping? then Active else old(halt)
    {
      flagged := flagged + raised;
      jumped := !masked && master && enabled * flagged != {};
      if jumped {
        masked := true;
        taken := taken + 1;
        if halt.Stopped? || halt.Halted? {
          halt := Active;
        }
      }
    }

    /** Works out the cycles to run, after a pass of `cycles`. */
    method Plan(cycles: nat)
      requires Parts() && VideoValid(Screen())
      requires halt.Sleeping? ==> sleep != 0 && sleep != 0x8000_0000
      requires halt.Sleeping? && !Marked() && cycles < sleep ==> sleep - cycles == wakeAt - accounted
      modifies `executeCycles, `halt, `sleep, `wakeAt
      ensures Planned() && SleepsOnTime() && !(halt.Sleeping? && Marked()) && AtEvent()
      ensures serial.irqCycles != 0 ==> executeCycles <= serial.irqCycles
      ensures executeCycles == 0 ==> SomeAtZero(timers[..])
      ensures !old(halt).Sleeping? ==> halt == old(halt)
      ensures old(halt).Sleeping? ==> halt.Active? || halt.Sleeping?
      ensures old(halt).Sleeping? && old(Marked()) ==> halt.Sleeping? && wakeAt == accounted + old(sleep) - 0x8000_0000
      ensures !(old(halt).Sleeping? && old(Marked())) ==> wakeAt == old(wakeAt)
      ensures old(halt).Sleeping? && halt.Active? ==> !old(Marked()) && old(sleep) <= cycles
    {
      executeCycles := Max(videoCount, 0);
      var next := serial.NextEvent();
      executeCycles := Min(executeCycles, next);
      if halt.Sleeping? {
        if Marked() {
          sleep := sleep - 0x8000_0000;
          wakeAt := accounted + sleep;
        } else {
          sleep := sleep - Min(sleep, cycles);
        }
        if sleep == 0 {
          halt := Active;
        } else {
          executeCycles := Min(executeCycles, sleep);
        }
      }
      LowerToTimers();
    }

    /** Lowers the cycles to run to the earliest timer event; a negative count, read as unsigned, does not
        lower them. */
    method LowerToTimers()
      requires timers.Length == 4
      modifies `executeCycles
      ensures executeCycles <= old(executeCycles) && Bounded(timers[..], executeCycles)
      ensures executeCycles < old(executeCycles) ==>
                exists k | 0 <= k < 4 :: timers[..][k].status.Prescale? && timers[..][k].count == executeCycles
    {
      var i := 0;
      while i < 4
        invariant 0 <= i <= 4 && executeCycles <= old(executeCycles)
        invariant Bounded(timers[..i], executeCycles)
        invariant executeCycles < old(executeCycles) ==>
                    exists k | 0 <= k < i :: timers[..][k].status.Prescale? && timers[..][k].count == executeCycles
      {
        assert timers[..][i] == timers[i];
        if timers[i].status.Prescale? && 0 <= timers[i].count < executeCycles {
          executeCycles := timers[i].count;
        }
        i := i + 1;
      }
      assert timers[..4] == timers[..];
    }

    /** Cycles to the end of the frame. */
    ghost function Left(): int
      reads `accounted, `frames
    {
      FRAME * (frames + 1) - accounted
    }

    /** One round of the update: `cycles` have passed, which is what `elapsed` is as an unsigned number. */
    method Round(cycles: u32, ghost elapsed: int, polled: bool)
      returns (frame: bool, jumped: bool, stolen: nat, ghost due: set<nat>, ghost serialIrq: bool, ghost event: Event)
      requires Parts() && InStep() && SleepsOnTime() && cycles == Wrap(elapsed) && Takes(Screen(), elapsed)
      modifies timers, serial, `videoCount, `vcount, `dispstat, `cpuTicks, `frameCounter, `accounted, `frames
      modifies `flagged, `masked, `halt, `taken, `executeCycles, `sleep, `wakeAt
      ensures Parts() && InStep() && SleepsOnTime() && Planned() && !(halt.Sleeping? && Marked())
      ensures accounted == old(accounted) + elapsed && frames == old(frames) + (if frame then 1 else 0)
      ensures frame ==> FRAME * frames <= accounted <= FRAME * frames + OVERSHOOT
      ensures timers[..] == Pass(old(timers[..]), cycles, false)
      ensures (Screen(), event) == VideoPass(old(Screen()), cycles) && frame == event.frame
      ensures forall i: nat :: i in due <==> i < 4 && Overflown(old(timers[..]), cycles, false)[i] && old(timers[i]).irq
      ensures flagged == old(flagged) + Raised(due, serialIrq, event)
      ensures jumped <==> !old(masked) && master && enabled * flagged != {}
      ensures masked == (old(masked) || jumped)
      ensures taken == old(taken) + (if jumped then 1 else 0)
      ensures AtEvent()
      ensures executeCycles == 0 ==> SomeAtZero(timers[..])
      ensures serial.irqCycles != 0 ==> executeCycles <= serial.irqCycles
      ensures old(halt).Sleeping? && old(Marked()) ==> halt.Sleeping? && wakeAt == accounted + old(sleep) - 0x8000_0000
      ensures !(old(halt).Sleeping? && old(Marked())) ==> wakeAt == old(wakeAt)
      ensures old(halt).Sleeping? && halt.Active? && 0 <= elapsed <= old(sleep) ==> accounted == wakeAt
      ensures if old(halt).Sleeping? then halt.Active? || halt.Sleeping? else !halt.Sleeping?
      ensures SerialAdvanced(cycles, old(serial.device).Polled() && polled, serialIrq)
      ensures !frame ==> Left() == old(Left()) - elapsed
    {
      hide AllFit, Pass, Bounded, VideoPass, Raised, Overflown, Time, Wrap;
      hide AtEvent, Planned, SomeAtZero, SerialAdvanced, Parts, Takes, S32, InStep, VideoValid;
      Drawing();
      PassCounts(Screen(), elapsed);
      var timersDue, serialDone, video;
      timersDue, serialDone, video, stolen := Advance(cycles, elapsed, polled);
      due, serialIrq, event := timersDue, serialDone, video;
      frame := video.frame;
      jumped := RaiseInterrupts(Raised(timersDue, serialDone, video));
      Drawing();
      Plan(cycles);
    }

    /** The rounds after the first, whose slice is `first`: each goes on for the cycles planned. */
    method KeepOn(ghost before: seq<Timer>, ghost screen: Video, ghost flags: set<Irq>, ghost asked: nat,
                  ghost forward: bool, ghost first: nat, polled: nat -> bool)
      returns (stolen: nat, jumped: bool, frame: bool, ghost slices: seq<nat>)
      requires Parts() && InStep() && SleepsOnTime() && Planned() && AtEvent() && SerialPlanned()
      requires !halt.Active? && !(halt.Sleeping? && Marked()) && (executeCycles == 0 ==> SomeAtZero(timers[..]))
      requires Sliced(before, [first], timers[..], forward) && VideoSliced(screen, [first], Screen(), forward)
      requires asked <= serial.raised && FlaggedBy(flags, before, screen, [first], serial.raised > asked, flagged)
      modifies timers, serial, `videoCount, `vcount, `dispstat, `cpuTicks, `frameCounter, `accounted, `frames
      modifies `flagged, `masked, `halt, `taken, `executeCycles, `sleep, `wakeAt
      ensures Parts() && InStep() && SleepsOnTime() && Planned() && AtEvent() && SerialPlanned()
      ensures if frame then FRAME * frames <= accounted <= FRAME * frames + OVERSHOOT else halt.Active?
      ensures frames == old(frames) + (if frame then 1 else 0)
      ensures taken >= old(taken) && (jumped <==> taken > old(taken))
      ensures |slices| > 1 && slices[0] == first && Sum(slices) >= first
      ensures accounted == old(accounted) + Sum(slices) - first
      ensures Sliced(before, slices, timers[..], forward) && VideoSliced(screen, slices, Screen(), forward)
      ensures FlaggedBy(flags, before, screen, slices, serial.raised > asked, flagged)
      ensures Serial.Leads(old(serial.Records()), serial.Records())
      ensures old(InRange(Screen())) ==> InRange(Screen())
      ensures wakeAt == old(wakeAt) && (old(halt).Sleeping? && halt.Active? ==> accounted == wakeAt)
      ensures old(halt).Sleeping? ==> halt.Active? || (halt.Sleeping? && !Marked())
      ensures serial.late == if serial.completions > old(serial.completions) then 0 else old(serial.late)
      ensures serial.completions >= old(serial.completions)
    {
      hide Pass, Overflown, AllFit, Bounded, Run, PacedRun, Paced, AllSlow, Slow, Sliced, SomeAtZero, Debt, FlaggedBy;
      hide Time, VideoSliced, VideoPass, AtEvent, Raised, Wrap, S32, InRange, Limit;
      hide VideoRun, RunIrqs, Serial.Asks, Serial.Leads, SleepsOnTime, InStep, Planned, VideoValid, Takes, Parts, Left;
      Drawing();
      Serial.LeadsToItself(serial.Records());
      FrameGoesOn();
      stolen, jumped, frame, slices := 0, false, false, [first];
      var rounds := 1;
      while !halt.Active? && !frame
        invariant Parts() && InStep() && SleepsOnTime() && Planned() && AtEvent() && SerialPlanned()
        invariant !(halt.Sleeping? && Marked()) && (executeCycles == 0 ==> SomeAtZero(timers[..]))
        invariant frames == old(frames) + (if frame then 1 else 0)
        invariant frame ==> FRAME * frames <= accounted <= FRAME * frames + OVERSHOOT
        invariant taken >= old(taken) && (jumped <==> taken > old(taken))
        invariant |slices| >= rounds >= 1 && slices[0] == first && Sum(slices) >= first
        invariant rounds == 1 ==> !halt.Active? && !frame
        invariant accounted == old(accounted) + Sum(slices) - first && Left() > 0
        invariant Sliced(before, slices, timers[..], forward) && VideoSliced(screen, slices, Screen(), forward)
        invariant asked <= serial.raised && FlaggedBy(flags, before, screen, slices, serial.raised > asked, flagged)
        invariant Serial.Leads(old(serial.Records()), serial.Records())
        invariant old(InRange(Screen())) ==> InRange(Screen())
        invariant wakeAt == old(wakeAt) && (old(halt).Sleeping? && halt.Active? ==> accounted == wakeAt)
        invariant old(halt).Sleeping? ==> halt.Active? || halt.Sleeping?
        invariant serial.late == if serial.completions > old(serial.completions) then 0 else old(serial.late)
        invariant serial.completions >= old(serial.completions)
        decreases if frame then 0 else Left(), Debt(timers[..])
      {
        Drawing();
        FourTimers();
        TimersFit();
        PlanIsTaken();
        SlicesGrow(before, slices, timers[..], executeCycles, executeCycles, forward);
        VideoSlicesGrow(screen, slices, Screen(), executeCycles, forward);
        DebtFalls(timers[..], false);
        PassCounts(Screen(), executeCycles);
        if old(InRange(Screen())) {
          VideoKeepsRange(Screen(), executeCycles);
        }
        SlicedIs(before, slices, timers[..], screen, Screen(), forward);
        ghost var earlier, planned, record := flagged, executeCycles, serial.Records();
        var frame', jumped', stolen', due, serialIrq, event := Round(executeCycles, executeCycles, polled(rounds));
        FlagsGrow(flags, before, screen, slices, record.raised > asked, earlier, planned, due, serialIrq, event);
        Serial.LeadsOn(old(serial.Records()), record, serial.Records());
        FrameGoesOn();
        slices := slices + [planned];
        frame, jumped, stolen := frame', jumped || jumped', stolen';
        rounds := rounds + 1;
      }
    }

    /** The loop of the update. */
    method Rounds(remaining: int, polled: nat -> bool)
      returns (stolen: nat, jumped: bool, frame: bool, ghost slices: seq<nat>)
      requires Parts() && InStep() && SleepsOnTime() && Planned()
      requires videoCount + remaining - executeCycles < MANY
      modifies timers, serial, `videoCount, `vcount, `dispstat, `cpuTicks, `frameCounter, `accounted, `frames
      modifies `flagged, `masked, `halt, `taken, `executeCycles, `sleep, `wakeAt
      ensures Parts() && InStep() && SleepsOnTime() && Planned() && SerialPlanned()
      ensures !frame ==> halt.Active? && frames == old(frames)
      ensures frame ==> frames == old(frames) + 1 && FRAME * frames <= accounted <= FRAME * frames + OVERSHOOT
      ensures jumped <==> taken > old(taken)
      ensures slices != [] && slices[0] == Wrap(old(executeCycles) - Max(remaining, -OVERSHOOT))
      ensures slices[0] <= Sum(slices)
      ensures accounted == old(accounted) + old(executeCycles) - Max(remaining, -OVERSHOOT) + (Sum(slices) - slices[0])
      ensures slices[0] == old(executeCycles) - Max(remaining, -OVERSHOOT) +
                           (if remaining <= old(executeCycles) then 0 else WORD)
      ensures Sliced(old(timers[..]), slices, timers[..], remaining <= old(executeCycles))
      ensures VideoSliced(old(Screen()), slices, Screen(), remaining <= old(executeCycles)) && AtEvent()
      ensures FlaggedBy(old(flagged), old(timers[..]), old(Screen()), slices, serial.raised > old(serial.raised),
                        flagged)
      ensures Serial.Leads(old(serial.Records()), serial.Records())
      ensures old(HandsBack(remaining)) ==> InRange(Screen())
      ensures |slices| == 1 && InRange(Screen()) ==> old(HandsBack(remaining))
      ensures old(halt).Sleeping? && old(Marked()) ==>
                wakeAt == accounted - (Sum(slices) - slices[0]) + old(sleep) - 0x8000_0000
      ensures old(halt).Sleeping? && !old(Marked()) ==> wakeAt == old(wakeAt)
      ensures old(halt).Sleeping? && halt.Active? && (old(Marked()) || 0 <= remaining <= old(executeCycles)) ==>
                accounted == wakeAt
      ensures old(halt).Sleeping? ==> halt.Active? || (halt.Sleeping? && !Marked())
      ensures remaining <= old(executeCycles) && old(SerialPlanned()) ==>
                serial.completions > old(serial.completions) ==> serial.late <= OVERSHOOT
    {
      hide Pass, Overflown, AllFit, Bounded, Run, PacedRun, Paced, AllSlow, Slow, Sliced, SomeAtZero, Debt, FlaggedBy;
      hide Time, VideoSliced, VideoPass, AtEvent, Raised, Wrap, CyclesToRun, ChangedPc, CompletedFrame;
      hide S32, InRange, Limit, InStep, VideoRun, RunIrqs, Serial.Asks, Serial.Leads, Parts, VideoValid;
      Drawing();
      FourTimers();
      ghost var before, screen, forward := timers[..], Screen(), remaining <= executeCycles;
      ghost var flags, elapsed := flagged, executeCycles - Max(remaining, -64);
      ghost var ranged := HandsBack(remaining);
      PassCounts(screen, elapsed);
      RangeSurvivesIff(screen, executeCycles, remaining);
      var cycles := Wrap(executeCycles - Max(remaining, -64));
      NoSlices(before, screen, forward);
      SlicesGrow(before, [], timers[..], executeCycles, cycles, forward);
      VideoSlicesGrow(screen, [], Screen(), cycles, forward);
      var frame', jumped', stolen', due, serialIrq, event := Round(cycles, elapsed, polled(0));
      assert FlaggedBy(flags, before, screen, [], false, flags);
      FlagsGrow(flags, before, screen, [], false, flags, cycles, due, serialIrq, event);
      ghost var record := serial.Records();
      frame, jumped, stolen := frame', jumped', stolen';
      slices := [cycles];
      assert [] + [cycles] == slices;
      if !halt.Active? && !frame {
        stolen, jumped', frame, slices := KeepOn(before, screen, flags, old(serial.raised), forward, cycles, polled);
        jumped := jumped || jumped';
        Serial.LeadsOn(old(serial.Records()), record, serial.Records());
      }
    }

    /** The update, called when the CPU has run its cycles but for `remaining` of them; it may have run
        over. It goes on until the CPU may run again or a frame is complete. The word returned holds the
        cycles to run next, whether an interrupt was taken, and whether a frame was completed. `slices`
        are the cycles of each round, and `polled` what polling the serial device says. The first slice is
        negative if a timer started meanwhile has lowered the cycles to run below those that remain. */
    method UpdateGba(remaining: int, polled: nat -> bool) returns (word: u32, ghost slices: seq<nat>)
      requires Valid() && videoCount + remaining - executeCycles < MANY
      modifies this, timers, serial
      ensures Valid() && SerialPlanned()
      ensures !CompletedFrame(word) ==> halt.Active? && frames == old(frames)
      ensures CompletedFrame(word) ==>
                frames == old(frames) + 1 && FRAME * frames <= accounted <= FRAME * frames + OVERSHOOT
      ensures ChangedPc(word) <==> taken > old(taken)
      ensures executeCycles < 0x8000 ==> executeCycles - OVERSHOOT <= CyclesToRun(word) <= executeCycles
      ensures slices != [] && slices[0] == Wrap(old(executeCycles) - Max(remaining, -OVERSHOOT))
      ensures accounted == old(accounted) + Sum(slices) - (if remaining <= old(executeCycles) then 0 else WORD)
      ensures Sliced(old(timers[..]), slices, timers[..], remaining <= old(executeCycles))
      ensures VideoSliced(old(Screen()), slices, Screen(), remaining <= old(executeCycles)) && AtEvent()
      ensures FlaggedBy(old(flagged), old(timers[..]), old(Screen()), slices, serial.raised > old(serial.raised),
                        flagged)
      ensures Serial.Leads(old(serial.Records()), serial.Records())
      ensures old(HandsBack(remaining)) ==> InRange(Screen())
      ensures |slices| == 1 && InRange(Screen()) ==> old(HandsBack(remaining))
      ensures old(halt).Sleeping? && old(Marked()) ==>
                wakeAt == accounted - (Sum(slices) - slices[0]) + old(sleep) - 0x8000_0000
      ensures old(halt).Sleeping? && !old(Marked()) ==> wakeAt == old(wakeAt)
      ensures old(halt).Sleeping? && halt.Active? && (old(Marked()) || 0 <= remaining <= old(executeCycles)) ==>
                accounted == wakeAt
      ensures old(halt).Sleeping? ==> halt.Active? || (halt.Sleeping? && !Marked())
      ensures remaining <= old(executeCycles) && old(SerialPlanned()) ==>
                serial.completions > old(serial.completions) ==> serial.late <= OVERSHOOT
      ensures executed == old(executed) + old(granted) - remaining && idle == old(idle) + (Sum(slices) - slices[0])
      ensures dropped == old(dropped) + (old(planned) - old(executeCycles)) + Max(-OVERSHOOT - remaining, 0)
      ensures planned == executeCycles && granted == (if CompletedFrame(word) then planned else CyclesToRun(word))
    {
      hide Pass, Overflown, AllFit, Bounded, Run, PacedRun, Paced, AllSlow, Slow, Sliced, Parts, Planned, FlaggedBy;
      hide Time, VideoSliced, VideoPass, AtEvent, Wrap, CyclesToRun, ChangedPc, CompletedFrame;
      hide S32, InRange, Limit, SleepsOnTime, HandsBack, SerialPlanned, InStep, Serial.Leads, RunIrqs, VideoRun;
      Spend(remaining);
      hide Balanced;
      var stolen, jumped, frame;
      stolen, jumped, frame, slices := Rounds(remaining, polled);
      word := Answer(stolen, jumped, frame);
      Grant(if frame then executeCycles else CyclesToRun(word), Sum(slices) - slices[0]);
    }

    /** Books the cycles that passed without the CPU, and what it is granted next. */
    ghost method Grant(cycles: nat, idled: nat)
      requires cycles <= executeCycles && accounted == executed + withheld + idle + idled - dropped
      modifies `idle, `planned, `granted
      ensures Balanced() && idle == old(idle) + idled && planned == executeCycles && granted == cycles
    {
      idle, planned, granted := idle + idled, executeCycles, cycles;
    }

    /** The cycles that remain are no more than those planned and those that had gone of the phase then. */
    ghost predicate HandsBack(remaining: int)
      reads `videoCount, `vcount, `dispstat, `executeCycles
    {
      Max(remaining, -OVERSHOOT) - executeCycles <= Limit(Screen()) - videoCount
    }

    /** Books the cycles of a slice, of which `remaining` were not run. */
    ghost method Spend(remaining: int)
      requires Balanced()
      modifies `executed, `withheld, `dropped
      ensures executed == old(executed) + granted - remaining
      ensures dropped == old(dropped) + (planned - executeCycles) + Max(-OVERSHOOT - remaining, 0)
      ensures accounted + executeCycles - Max(remaining, -OVERSHOOT) == executed + withheld + idle - dropped
    {
      executed := executed + granted - remaining;
      withheld := withheld + planned - granted;
      dropped := dropped + (planned - executeCycles) + Max(-OVERSHOOT - remaining, 0);
    }

    /** The word returned: the cycles to run, less what DMA has used up, and the two flags. */
    method Answer(stolen: nat, jumped: bool, frame: bool) returns (word: u32)
      requires Planned() && InStep()
      ensures CyclesToRun(word) <= executeCycles
      ensures CyclesToRun(word) == (executeCycles - Min(executeCycles, Min(OVERSHOOT, stolen))) % 0x8000
      ensures (ChangedPc(word) <==> jumped) && (CompletedFrame(word) <==> frame)
    {
      var dma := Min(executeCycles, Min(64, stolen));
      word := Packed(executeCycles - dma, jumped, frame);
      WordDecodes(executeCycles - dma, jumped, frame);
    }

    /** The CPU may not run past the end of a pending serial transfer. */
    ghost predicate SerialPlanned()
      reads `executeCycles, serial
    {
      serial.irqCycles != 0 ==> executeCycles <= serial.irqCycles
    }
  }

  /** A DMA puts the CPU to sleep at the start, for however long: frame after frame goes by, and the CPU wakes
      on the cycle. */
  method SleepThenWake(cycles: nat) returns (m: Machine)
    requires 0 < cycles < 0x8000_0000
    ensures fresh(m) && m.Valid() && m.halt.Active? && m.accounted == cycles
  {
    hide Pass, Overflown, AllFit, Bounded, Run, PacedRun, Sliced, VideoRun, VideoPass, VideoPaced, VideoSliced, S32;
    hide FlaggedBy, Serial.Leads, RunIrqs;
    m := new Machine(Serial.Disabled);
    m.Sleep(cycles);
    WrapSmall(0);
    var _, _ := m.UpdateGba(m.executeCycles, _ => false);
    while !m.halt.Active?
      invariant m.Valid() && fresh(m) && fresh(m.timers) && fresh(m.serial) && m.wakeAt == cycles
      invariant if m.halt.Active? then m.accounted == cycles else m.halt.Sleeping? && !m.Marked()
      invariant m.accounted <= FRAME * m.frames + OVERSHOOT || m.halt.Active?
      decreases cycles - m.accounted
    {
      var _, _ := m.UpdateGba(m.executeCycles, _ => false);
    }
  }

  lemma FirstRoundGoesBack()
    ensures Wrap(-694) == WORD - 694
    ensures var first := VideoPass(TOP, Wrap(-694)).0; first.count == 1654 && VideoValid(first) && !InRange(first)
  {
    hide S32, Wrap;
    PassCounts(TOP, -694);
  }

  /** The guest starts a timer of 256 cycles when the CPU has run ten of its first 960, and halts. The first
      round of the update then hands back 694 cycles: 1654 are left of a phase of 960, and 704 cycles that the
      CPU was given are never accounted for. */
  method StartTimerThenHalt() returns (m: Machine, ghost slices: seq<nat>)
    ensures fresh(m) && m.Valid() && slices != [] && m.Screen() == VideoRun(TOP, slices).0
    ensures var first := VideoPass(TOP, slices[0]).0;
            first.count == 1654 && VideoValid(first) && !InRange(first)
    ensures m.dropped == 704 && m.accounted == m.executed + m.idle - 704
  {
    hide Pass, Overflown, AllFit, Bounded, Run, PacedRun, Sliced, VideoRun, VideoPass, VideoPaced, Wrap, S32, Time;
    hide FlaggedBy, Serial.Leads, RunIrqs;
    m := new Machine(Serial.Disabled);
    m.SetReload(0, 0xFF00);
    assert m.timers[..][0].reload == 0x100;
    m.TriggerTimer(0, true, false, 0, false);
    assert m.executeCycles == 256;
    m.HaltCpu(false);
    var _, rounds := m.UpdateGba(950, _ => false);
    slices := rounds;
    FirstRoundGoesBack();
  }
}
