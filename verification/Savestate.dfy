/** Saving and loading the state of the processor and the scheduler as a document of fixed size. */
module Savestate {
  import opened Basics
  import opened Word32
  import opened Bson

  const STATE_SIZE := 425984
  const MAGIC: u32 := 0x06BAC0DE
  const VERSION: u32 := 0x00010004

  // ----------------------------------------------------------------------------------------------
  // The documents
  // ----------------------------------------------------------------------------------------------

  /** Architectural registers with status, mode and halt state; saved status registers; banked registers;
      the last value on the bus. */
  datatype CpuState = CpuState(regs: seq<u32>, spsr: seq<u32>, bank: seq<u32>, bus: u32)

  datatype EmuState = EmuState(frames: u32, ticks: u32, execute: u32, video: u32, sleep: u32, serial: u32,
                               random: u32, gbp: u32)

  datatype TimerState = TimerState(count: u32, reload: u32, prescale: u32, step: u32, channels: u32, irq: u32,
                                   status: u32)

  function IntField(key: string, v: u32): Field { Field(key, Int(v)) }

  function CpuFields(c: CpuState): seq<Field> {
    [Field("regs", Arr(c.regs)), Field("spsr", Arr(c.spsr)), Field("regmod", Arr(c.bank)), IntField("bus-value", c.bus)]
  }

  function EmuFields(e: EmuState): seq<Field> {
    [IntField("frame-count", e.frames), IntField("cpu-ticks", e.ticks), IntField("exec-cycles", e.execute),
     IntField("video-count", e.video), IntField("sleep-cycles", e.sleep), IntField("serial-irq-cycles", e.serial),
     IntField("rand-state", e.random), IntField("gbp-state", e.gbp)]
  }

  function TimerFields(t: TimerState): seq<Field> {
    [IntField("count", t.count), IntField("reload", t.reload), IntField("prescale", t.prescale),
     IntField("freq-step", t.step), IntField("dsc", t.channels), IntField("irq", t.irq), IntField("status", t.status)]
  }

  function Digit(i: nat): string { if i == 0 then "0" else if i == 1 then "1" else if i == 2 then "2" else "3" }

  function TimersFields(ts: seq<TimerState>): seq<Field>
    requires |ts| == 4
  {
    seq(4, i requires 0 <= i < 4 => Field(Digit(i), Doc(TimerFields(ts[i]))))
  }

  // ----------------------------------------------------------------------------------------------
  // What a document holds
  // ----------------------------------------------------------------------------------------------

  predicate HasInt(w: View, key: string) { Sees(w, key).Some? && Sees(w, key).value.Int? }

  predicate HasArr(w: View, key: string) { Sees(w, key).Some? && Sees(w, key).value.Arr? }

  /** The number that the value of a name begins with, whatever its type. */
  function NumOf(w: View, key: string, otherwise: u32): u32 {
    var v := Sees(w, key);
    if v.Some? then FirstWord(v.value) else otherwise
  }

  function ArrOf(w: View, key: string): seq<u32> {
    var v := Sees(w, key);
    if v.Some? && v.value.Arr? then v.value.items else []
  }

  predicate CpuAccepts(w: View) {
    && Sees(w, "cpu").Some?
    && var c := Enter(w, "cpu");
    HasInt(c, "bus-value") && HasArr(c, "regs") && HasArr(c, "spsr") && HasArr(c, "regmod")
  }

  function CpuFrom(w: View): CpuState {
    var c := Enter(w, "cpu");
    CpuState(ArrOf(c, "regs"), ArrOf(c, "spsr"), ArrOf(c, "regmod"), NumOf(c, "bus-value", 0))
  }

  predicate EmuAccepts(e: View) {
    HasInt(e, "cpu-ticks") && HasInt(e, "exec-cycles") && HasInt(e, "video-count") && HasInt(e, "sleep-cycles")
  }

  /** What is read back; four of the fields may be missing in older states, and are of whatever type. */
  function EmuFrom(e: View, now: EmuState): EmuState {
    EmuState(NumOf(e, "frame-count", 600), NumOf(e, "cpu-ticks", 0), NumOf(e, "exec-cycles", 0),
             NumOf(e, "video-count", 0), NumOf(e, "sleep-cycles", 0), NumOf(e, "serial-irq-cycles", 0),
             NumOf(e, "rand-state", now.random), NumOf(e, "gbp-state", now.gbp))
  }

  predicate TimerAccepts(t: View) {
    && HasInt(t, "count") && HasInt(t, "reload") && HasInt(t, "prescale") && HasInt(t, "freq-step")
    && HasInt(t, "dsc") && HasInt(t, "irq") && HasInt(t, "status")
  }

  function TimerFrom(t: View): TimerState {
    TimerState(NumOf(t, "count", 0), NumOf(t, "reload", 0), NumOf(t, "prescale", 0), NumOf(t, "freq-step", 0),
               NumOf(t, "dsc", 0), NumOf(t, "irq", 0), NumOf(t, "status", 0))
  }

  predicate TimersAccept(ts: View) {
    forall i | 0 <= i < 4 :: Sees(ts, Digit(i)).Some? && TimerAccepts(Enter(ts, Digit(i)))
  }

  predicate MainAccepts(w: View) {
    && Sees(w, "emu").Some? && Sees(w, "timers").Some?
    && EmuAccepts(Enter(w, "emu")) && TimersAccept(Enter(w, "timers"))
  }

  function TimersFrom(w: View): seq<TimerState> {
    seq(4, i requires 0 <= i < 4 => TimerFrom(Enter(Enter(w, "timers"), Digit(i))))
  }

  // ----------------------------------------------------------------------------------------------
  // The round trip, over documents
  // ----------------------------------------------------------------------------------------------

  ghost predicate Unnamed(fields: seq<Field>, key: string) {
    forall f | f in fields :: f.name != key
  }

  /** A field is found whatever comes after it, and whatever else comes before it. */
  lemma {:induction false} LookupPast(before: seq<Field>, f: Field, after: seq<Field>)
    requires Unnamed(before, f.name)
    ensures Lookup(before + [f] + after, f.name) == Some(f.value)
  {
    IndexIsFirst(before + [f] + after, f.name, |before|);
  }

  lemma CpuReadsBack(c: CpuState)
    ensures Lookup(CpuFields(c), "regs") == Some(Arr(c.regs))
    ensures Lookup(CpuFields(c), "spsr") == Some(Arr(c.spsr))
    ensures Lookup(CpuFields(c), "regmod") == Some(Arr(c.bank))
    ensures Lookup(CpuFields(c), "bus-value") == Some(Int(c.bus))
  {
    var fs := CpuFields(c);
    IndexIsFirst(fs, "regs", 0);
    IndexIsFirst(fs, "spsr", 1);
    IndexIsFirst(fs, "regmod", 2);
    IndexIsFirst(fs, "bus-value", 3);
  }

  /** A number of a whole document is read back. */
  lemma IntReadsBack(fs: seq<Field>, i: nat, v: u32)
    requires i < |fs| && fs[i].value == Int(v) && forall j | 0 <= j < i :: fs[j].name != fs[i].name
    ensures HasInt(Whole(fs), fs[i].name) && forall d :: NumOf(Whole(fs), fs[i].name, d) == v
  {
    hide Seen;
    IndexIsFirst(fs, fs[i].name, i);
    WholeSeesAll(fs, fs[i].name);
  }

  lemma EmuReadsBack(e: EmuState, now: EmuState)
    ensures EmuAccepts(Whole(EmuFields(e))) && EmuFrom(Whole(EmuFields(e)), now) == e
  {
    hide Index, NumOf, HasInt, Seen, Whole;
    var fs := EmuFields(e);
    var vs := [e.frames, e.ticks, e.execute, e.video, e.sleep, e.serial, e.random, e.gbp];
    forall i | 0 <= i < 8
      ensures HasInt(Whole(fs), fs[i].name) && forall d :: NumOf(Whole(fs), fs[i].name, d) == vs[i]
    {
      IntReadsBack(fs, i, vs[i]);
    }
    assert fs[0].name == "frame-count" && fs[1].name == "cpu-ticks" && fs[2].name == "exec-cycles"
        && fs[3].name == "video-count" && fs[4].name == "sleep-cycles" && fs[5].name == "serial-irq-cycles"
        && fs[6].name == "rand-state" && fs[7].name == "gbp-state";
  }

  lemma TimerReadsBack(t: TimerState)
    ensures TimerAccepts(Whole(TimerFields(t))) && TimerFrom(Whole(TimerFields(t))) == t
  {
    hide Index, NumOf, HasInt, Seen, Whole;
    var fs := TimerFields(t);
    var vs := [t.count, t.reload, t.prescale, t.step, t.channels, t.irq, t.status];
    forall i | 0 <= i < 7
      ensures HasInt(Whole(fs), fs[i].name) && forall d :: NumOf(Whole(fs), fs[i].name, d) == vs[i]
    {
      IntReadsBack(fs, i, vs[i]);
    }
    assert fs[0].name == "count" && fs[1].name == "reload" && fs[2].name == "prescale" && fs[3].name == "freq-step"
        && fs[4].name == "dsc" && fs[5].name == "irq" && fs[6].name == "status";
  }

  /** A document inside a whole document is seen as a whole. */
  lemma EnterDoc(fs: seq<Field>, key: string, inner: seq<Field>)
    requires Lookup(fs, key) == Some(Doc(inner))
    ensures Sees(Whole(fs), key) == Some(Doc(inner)) && Enter(Whole(fs), key) == Whole(inner)
  {
    WholeSeesAll(fs, key);
  }

  lemma DigitsDiffer()
    ensures forall i, j | 0 <= i < j < 4 :: Digit(i) != Digit(j)
  {
    assert Digit(0)[0] == '0' && Digit(1)[0] == '1' && Digit(2)[0] == '2' && Digit(3)[0] == '3';
  }

  lemma TimersReadBack(ts: seq<TimerState>)
    requires |ts| == 4
    ensures forall i | 0 <= i < 4 :: Lookup(TimersFields(ts), Digit(i)) == Some(Doc(TimerFields(ts[i])))
  {
    hide Index, Digit, TimerFields;
    var fs := TimersFields(ts);
    DigitsDiffer();
    forall i | 0 <= i < 4
      ensures Lookup(fs, Digit(i)) == Some(Doc(TimerFields(ts[i])))
    {
      IndexIsFirst(fs, Digit(i), i);
    }
  }

  /** Everything a savestate holds but the padding: `input`, `memory` and `sound` stand for what the other
      parts of the emulator write. */
  function Content(c: CpuState, e: EmuState, ts: seq<TimerState>,
                   input: seq<Field>, memory: seq<Field>, sound: seq<Field>): seq<Field>
    requires |ts| == 4
  {
    [IntField("info-magic", MAGIC), IntField("info-version", VERSION)] + [Field("cpu", Doc(CpuFields(c)))] + input +
    [Field("emu", Doc(EmuFields(e)))] + [Field("timers", Doc(TimersFields(ts)))] + memory + sound
  }

  ghost predicate OwnNamesFree(fields: seq<Field>) {
    Unnamed(fields, "emu") && Unnamed(fields, "timers")
  }

  lemma ContentLookups(c: CpuState, e: EmuState, ts: seq<TimerState>,
                       input: seq<Field>, memory: seq<Field>, sound: seq<Field>, rest: seq<Field>)
    requires |ts| == 4 && OwnNamesFree(input)
    ensures var fs := Content(c, e, ts, input, memory, sound) + rest;
            && Lookup(fs, "info-magic") == Some(Int(MAGIC)) && Lookup(fs, "info-version") == Some(Int(VERSION))
            && Lookup(fs, "cpu") == Some(Doc(CpuFields(c))) && Lookup(fs, "emu") == Some(Doc(EmuFields(e)))
            && Lookup(fs, "timers") == Some(Doc(TimersFields(ts)))
  {
    hide Index, EmuFields, CpuFields, TimersFields, Lookup;
    var fs := Content(c, e, ts, input, memory, sound) + rest;
    var magic, version := IntField("info-magic", MAGIC), IntField("info-version", VERSION);
    var cpu, emu := Field("cpu", Doc(CpuFields(c))), Field("emu", Doc(EmuFields(e)));
    var timers := Field("timers", Doc(TimersFields(ts)));
    var after := memory + sound + rest;
    assert fs == [] + [magic] + ([version, cpu] + input + [emu, timers] + after);
    LookupPast([], magic, [version, cpu] + input + [emu, timers] + after);
    assert fs == [magic] + [version] + ([cpu] + input + [emu, timers] + after);
    LookupPast([magic], version, [cpu] + input + [emu, timers] + after);
    assert fs == [magic, version] + [cpu] + (input + [emu, timers] + after);
    LookupPast([magic, version], cpu, input + [emu, timers] + after);
    assert fs == ([magic, version, cpu] + input) + [emu] + ([timers] + after);
    LookupPast([magic, version, cpu] + input, emu, [timers] + after);
    assert fs == ([magic, version, cpu] + input + [emu]) + [timers] + after;
    LookupPast([magic, version, cpu] + input + [emu], timers, after);
  }

  /** What was written is accepted and read back exactly, whatever the other parts of the emulator wrote in
      between, and whatever follows. */
  lemma ContentReadsBack(c: CpuState, e: EmuState, ts: seq<TimerState>,
                         input: seq<Field>, memory: seq<Field>, sound: seq<Field>, rest: seq<Field>, now: EmuState)
    requires |ts| == 4 && OwnNamesFree(input)
    ensures var w := Whole(Content(c, e, ts, input, memory, sound) + rest);
            && NumOf(w, "info-magic", 0) == MAGIC && NumOf(w, "info-version", 0) == VERSION
            && CpuAccepts(w) && CpuFrom(w) == c
            && MainAccepts(w) && EmuFrom(Enter(w, "emu"), now) == e && TimersFrom(w) == ts
  {
    hide EmuFields, TimerFields, CpuFields, TimersFields, Content;
    hide EmuFrom, TimerFrom, EmuAccepts, TimerAccepts, Index, Lookup, Enter, Seen, Whole;
    var fs := Content(c, e, ts, input, memory, sound) + rest;
    ContentLookups(c, e, ts, input, memory, sound, rest);
    WholeSeesAll(fs, "info-magic");
    WholeSeesAll(fs, "info-version");
    EnterDoc(fs, "cpu", CpuFields(c));
    EnterDoc(fs, "emu", EmuFields(e));
    EnterDoc(fs, "timers", TimersFields(ts));
    CpuWholeReadsBack(c);
    EmuReadsBack(e, now);
    TimersReadBack(ts);
    forall i | 0 <= i < 4
      ensures Sees(Whole(TimersFields(ts)), Digit(i)).Some?
      ensures var t := Enter(Whole(TimersFields(ts)), Digit(i)); TimerAccepts(t) && TimerFrom(t) == ts[i]
    {
      EnterDoc(TimersFields(ts), Digit(i), TimerFields(ts[i]));
      TimerReadsBack(ts[i]);
    }
  }

  lemma CpuWholeReadsBack(c: CpuState)
    ensures var w := Whole(CpuFields(c));
            && HasInt(w, "bus-value") && HasArr(w, "regs") && HasArr(w, "spsr") && HasArr(w, "regmod")
            && ArrOf(w, "regs") == c.regs && ArrOf(w, "spsr") == c.spsr && ArrOf(w, "regmod") == c.bank
            && NumOf(w, "bus-value", 0) == c.bus
  {
    hide Index, Lookup, Seen, Whole;
    var fs := CpuFields(c);
    CpuReadsBack(c);
    WholeSeesAll(fs, "regs");
    WholeSeesAll(fs, "spsr");
    WholeSeesAll(fs, "regmod");
    WholeSeesAll(fs, "bus-value");
  }

  // ----------------------------------------------------------------------------------------------
  // Checking
  // ----------------------------------------------------------------------------------------------

  /** Whether the fields of these names are there, and are numbers. */
  method ContainsInts(s: Bytes, p: nat, keys: seq<string>, ghost w: View) returns (ok: bool)
    requires WalkAt(s, p, w) && forall k | k in keys :: Plain(k)
    ensures ok <==> forall k | k in keys :: HasInt(w, k)
  {
    hide WalkAt, Sees, Plain, PlaceOf, Enter, Sane, At, Encode, TypeOf;
    for i := 0 to |keys|
      invariant forall j | 0 <= j < i :: HasInt(w, keys[j])
    {
      ok := ContainsKey(s, p, keys[i], 0x10, w);
      TypesDiffer();
      if !ok {
        assert keys[i] in keys;
        return false;
      }
    }
    ok := true;
  }

  lemma TypesDiffer()
    ensures forall v :: TypeOf(v) == 0x10 <==> v.Int?
    ensures forall v :: TypeOf(v) == 0x04 <==> v.Arr?
  {
  }

  method CheckCpu(s: Bytes, ghost w: View) returns (ok: bool)
    requires WalkAt(s, 0, w)
    ensures ok <==> CpuAccepts(w)
  {
    hide WalkAt, Sees, Enter, Encode, Sane, Plain, PlaceOf, TypeOf;
    TypesDiffer();
    TopNamesArePlain();
    RegisterNamesArePlain();
    var p := FindKey(s, 0, "cpu", w);
    if p.None? {
      return false;
    }
    ghost var c := Enter(w, "cpu");
    ok := ContainsKey(s, p.value, "bus-value", 0x10, c);
    if ok {
      ok := ContainsKey(s, p.value, "regs", 0x04, c);
    }
    if ok {
      ok := ContainsKey(s, p.value, "spsr", 0x04, c);
    }
    if ok {
      ok := ContainsKey(s, p.value, "regmod", 0x04, c);
    }
  }

  const EMU_KEYS := ["cpu-ticks", "exec-cycles", "video-count", "sleep-cycles"]
  const TIMER_KEYS := ["count", "reload", "prescale", "freq-step", "dsc", "irq", "status"]

  lemma KeysArePlain()
    ensures Plain("emu") && Plain("timers") && (forall i :: Plain(Digit(i)))
    ensures (forall k | k in EMU_KEYS :: Plain(k)) && (forall k | k in TIMER_KEYS :: Plain(k))
  {
    hide Plain;
    TopNamesArePlain();
    DigitsArePlain();
    NamesArePlain();
  }

  method CheckMain(s: Bytes, ghost w: View) returns (ok: bool)
    requires WalkAt(s, 0, w)
    ensures ok <==> MainAccepts(w)
  {
    hide WalkAt, Sees, Enter, Encode, Sane, Plain, EmuAccepts, TimersAccept;
    KeysArePlain();
    var p1 := FindKey(s, 0, "emu", w);
    var p2 := FindKey(s, 0, "timers", w);
    if p1.None? || p2.None? {
      return false;
    }
    ok := ContainsInts(s, p1.value, EMU_KEYS, Enter(w, "emu"));
    EmuKeys(Enter(w, "emu"));
    if ok {
      ok := CheckTimers(s, p2.value, Enter(w, "timers"));
    }
  }

  method CheckTimers(s: Bytes, p0: nat, ghost ts: View) returns (ok: bool)
    requires WalkAt(s, p0, ts)
    ensures ok <==> TimersAccept(ts)
  {
    hide WalkAt, Sees, Enter, Encode, Sane, Plain, TimerAccepts, Digit;
    KeysArePlain();
    ok := true;
    for i := 0 to 4
      invariant ok
      invariant forall j | 0 <= j < i :: Sees(ts, Digit(j)).Some? && TimerAccepts(Enter(ts, Digit(j)))
    {
      var p := FindKey(s, p0, Digit(i), ts);
      if p.None? {
        return false;
      }
      ok := ContainsInts(s, p.value, TIMER_KEYS, Enter(ts, Digit(i)));
      TimerKeys(Enter(ts, Digit(i)));
      if !ok {
        return;
      }
    }
  }

  lemma EmuKeys(e: View)
    ensures EmuAccepts(e) <==> forall k | k in EMU_KEYS :: HasInt(e, k)
  {
    hide Sees;
    assert EMU_KEYS[0] in EMU_KEYS && EMU_KEYS[1] in EMU_KEYS && EMU_KEYS[2] in EMU_KEYS && EMU_KEYS[3] in EMU_KEYS;
  }

  lemma TimerKeys(t: View)
    ensures TimerAccepts(t) <==> forall k | k in TIMER_KEYS :: HasInt(t, k)
  {
    hide Sees;
    assert TIMER_KEYS[0] in TIMER_KEYS && TIMER_KEYS[1] in TIMER_KEYS && TIMER_KEYS[2] in TIMER_KEYS
        && TIMER_KEYS[3] in TIMER_KEYS && TIMER_KEYS[4] in TIMER_KEYS && TIMER_KEYS[5] in TIMER_KEYS
        && TIMER_KEYS[6] in TIMER_KEYS;
  }

  // ----------------------------------------------------------------------------------------------
  // Writing fields one after the other
  // ----------------------------------------------------------------------------------------------

  /** The first `k` of the fields have been written behind `start`, and there is room for the others. */
  ghost predicate WrittenUpTo(w: Writer, start: Bytes, fields: seq<Field>, k: nat)
    reads w, w.buf
  {
    && k <= |fields| && w.Room(0)
    && w.Written() == start + EncodeAll(fields[..k])
    && |start| + |EncodeAll(fields)| <= w.buf.Length
  }

  lemma WriteStarts(w: Writer, start: Bytes, fields: seq<Field>)
    requires w.Room(|EncodeAll(fields)|) && w.Written() == start
    ensures WrittenUpTo(w, start, fields, 0)
  {
  }

  /** Room for the next field, and what follows it. */
  lemma OneMore(fields: seq<Field>, k: nat)
    requires k < |fields|
    ensures EncodeAll(fields[..k + 1]) == EncodeAll(fields[..k]) + EncodeField(fields[k])
    ensures |EncodeAll(fields[..k])| + |EncodeField(fields[k])| <= |EncodeAll(fields)|
  {
    hide EncodeField;
    assert fields[..k + 1] == fields[..k] + [fields[k]];
    EncodeAppend(fields[..k], [fields[k]]);
    assert EncodeAll([fields[k]]) == EncodeField(fields[k]) + EncodeAll([]);
    EncodeAppend(fields[..k + 1], fields[k + 1..]);
    assert fields[..k + 1] + fields[k + 1..] == fields;
  }

  /** Writes the `k`-th field, a number. */
  method PutInt(w: Writer, key: string, v: u32, ghost start: Bytes, ghost fields: seq<Field>, ghost k: nat)
    requires WrittenUpTo(w, start, fields, k) && k < |fields| && fields[k] == IntField(key, v)
    modifies w, w.buf
    ensures WrittenUpTo(w, start, fields, k + 1)
  {
    hide EncodeField, EncodeAll;
    OneMore(fields, k);
    w.WriteInt32(key, v);
  }

  method PutArr(w: Writer, key: string, items: seq<u32>, ghost start: Bytes, ghost fields: seq<Field>, ghost k: nat)
    requires WrittenUpTo(w, start, fields, k) && k < |fields| && fields[k] == Field(key, Arr(items))
    modifies w, w.buf
    ensures WrittenUpTo(w, start, fields, k + 1)
  {
    hide EncodeField, EncodeAll;
    OneMore(fields, k);
    w.WriteInt32Array(key, items);
  }

  /** Opens a document for these fields. */
  method Open(w: Writer, key: string, ghost fields: seq<Field>) returns (header: nat, ghost start: Bytes)
    requires w.Room(|EncodeField(Field(key, Doc(fields)))|)
    modifies w, w.buf
    ensures start == old(w.Written()) + ([0x03] + Str(key) + [0] + Word(0))
    ensures header == old(w.p) + |key| + 2 && |start| + |EncodeAll(fields)| + 1 <= w.buf.Length
    ensures WrittenUpTo(w, start, fields, 0)
  {
    hide Str, Word, EncodeAll;
    header := w.StartDocument(key);
    start := w.Written();
    WriteStarts(w, start, fields);
  }

  /** Closes it once all of them have been written. */
  method Close(w: Writer, header: nat, ghost before: Bytes, ghost start: Bytes, key: string, ghost fields: seq<Field>)
    requires start == before + ([0x03] + Str(key) + [0] + Word(0)) && header == |before| + |key| + 2
    requires WrittenUpTo(w, start, fields, |fields|) && |start| + |EncodeAll(fields)| + 1 <= w.buf.Length
    modifies w, w.buf
    ensures w.Room(0) && w.Written() == before + EncodeField(Field(key, Doc(fields)))
  {
    hide Str, Word, Wrap, EncodeAll;
    assert fields[..|fields|] == fields;
    ghost var body := EncodeAll(fields);
    ghost var all := w.Written();
    assert all[..header] == before + ([0x03] + Str(key) + [0]) && all[header + 4..] == body;
    w.FinishDocument(header);
    DocumentWritten(before, key, fields);
  }

  // ----------------------------------------------------------------------------------------------
  // The emulator's state
  // ----------------------------------------------------------------------------------------------

  /** A number that may be missing. */
  method ReadDefault(s: Bytes, p: nat, key: string, otherwise: u32, ghost e: View) returns (v: u32)
    requires WalkAt(s, p, e) && Plain(key)
    ensures v == NumOf(e, key, otherwise)
  {
    hide WalkAt, Sees, Encode, Sane;
    var ok;
    ok, v := ReadInt32(s, p, key, e);
    if !ok {
      v := otherwise;
    }
  }

  /** An array of a document is there in full, and its length is what it says. */
  lemma ArrayFits(s: Bytes, p: nat, w: View, key: string, n: nat)
    requires WalkAt(s, p, w) && HasArr(w, key)
    ensures Claims(Sees(w, key).value, n) <==> |ArrOf(w, key)| == n
    ensures Claims(Sees(w, key).value, n) ==> PlaceOf(p, w, key) + 4 + 8 * n <= |s|
  {
    hide WalkAt, Encode, ValueAt, Claims;
    var i := Seen(w, key).value;
    IntoAt(s, p, w, i);
    SaneFields(s, p, w);
    assert w.fields[i] in w.fields;
    ArrayClaims(ArrOf(w, key), n);
    WordsAreItems(s, PlaceOf(p, w, key), ArrOf(w, key));
  }

  lemma SaneFields(s: Bytes, p: nat, w: View)
    requires WalkAt(s, p, w)
    ensures forall f | f in w.fields :: Sane(f.value)
  {
  }

  /** Reads an array of a document. */
  method ReadArray(s: Bytes, p: nat, key: string, out: array<u32>, ghost w: View) returns (ok: bool)
    requires Plain(key) && WalkAt(s, p, w) && HasArr(w, key)
    modifies out
    ensures ok <==> |ArrOf(w, key)| == out.Length
    ensures out[..] == if ok then ArrOf(w, key) else old(out[..])
  {
    hide WalkAt, Sees, PlaceOf, Claims, WordsAt;
    ArrayFits(s, p, w, key, out.Length);
    ok := ReadInt32Array(s, p, key, out, w);
  }

  /** What the other parts of the emulator make of a savestate: whether they accept it, and whether they can read
      it. */
  datatype Others = Others(inputCheck: Bytes -> bool, memoryCheck: Bytes -> bool, soundCheck: Bytes -> bool,
                           inputRead: Bytes -> bool, memoryRead: Bytes -> bool, soundRead: Bytes -> bool)
  {
    predicate Accept(s: Bytes) { inputCheck(s) && memoryCheck(s) && soundCheck(s) }

    predicate Read(s: Bytes) { inputRead(s) && memoryRead(s) && soundRead(s) }
  }

  class Emulator {
    const regs: array<u32>
    const spsr: array<u32>
    const bank: array<u32>
    const timers: array<TimerState>
    var bus: u32
    var emu: EmuState

    constructor ()
      ensures Sizes() && fresh(regs) && fresh(spsr) && fresh(bank) && fresh(timers)
    {
      regs, spsr, bank := new u32[19](_ => 0), new u32[6](_ => 0), new u32[49](_ => 0);
      timers := new TimerState[4](_ => TimerState(0, 0, 0, 0, 0, 0, 0));
      bus, emu := 0, EmuState(0, 0, 0, 0, 0, 0, 0, 0);
    }

    ghost predicate Sizes() {
      && regs.Length == 19 && spsr.Length == 6 && bank.Length == 49 && timers.Length == 4
      && regs != spsr && regs != bank && spsr != bank
    }

    ghost function Cpu(): CpuState
      reads `bus, regs, spsr, bank
    {
      CpuState(regs[..], spsr[..], bank[..], bus)
    }

    method WriteCpu(w: Writer)
      requires w.Room(|EncodeField(Field("cpu", Doc(CpuFields(Cpu()))))|)
      requires w.buf as object !in {regs, spsr, bank}
      modifies w, w.buf
      ensures w.Room(0) && w.Written() == old(w.Written()) + EncodeField(Field("cpu", Doc(CpuFields(Cpu()))))
      ensures Cpu() == old(Cpu())
    {
      hide EncodeField, EncodeAll, WrittenUpTo;
      ghost var before, fields := w.Written(), CpuFields(Cpu());
      var header, start := Open(w, "cpu", fields);
      PutArr(w, "regs", regs[..], start, fields, 0);
      PutArr(w, "spsr", spsr[..], start, fields, 1);
      PutArr(w, "regmod", bank[..], start, fields, 2);
      PutInt(w, "bus-value", bus, start, fields, 3);
      Close(w, header, before, start, "cpu", fields);
    }

    /** Restores the processor from a document that the check has accepted. The check looks at types only:
        reading still fails when an array has another length than its destination, and what was read before
        that one stays. */
    method ReadCpu(s: Bytes, ghost w: View) returns (ok: bool)
      requires Sizes() && WalkAt(s, 0, w) && CpuAccepts(w)
      modifies `bus, regs, spsr, bank
      ensures ok <==> CpuFits(CpuFrom(w))
      ensures ok ==> Cpu() == CpuFrom(w)
      ensures bus == CpuFrom(w).bus && (|CpuFrom(w).regs| == 19 ==> regs[..] == CpuFrom(w).regs)
    {
      hide WalkAt, Sees, Enter, Encode, Sane, HasArr, ArrOf, Plain, FirstWord, PlaceOf;
      TopNamesArePlain();
      RegisterNamesArePlain();
      var p := FindKey(s, 0, "cpu", w);
      ghost var c := Enter(w, "cpu");
      ok, bus := ReadInt32(s, p.value, "bus-value", c);
      ok := ReadArray(s, p.value, "regs", regs, c);
      if ok {
        ok := ReadArray(s, p.value, "spsr", spsr, c);
      }
      if ok {
        ok := ReadArray(s, p.value, "regmod", bank, c);
      }
    }

    method WriteEmu(w: Writer)
      requires w.Room(|EncodeField(Field("emu", Doc(EmuFields(emu))))|)
      modifies w, w.buf
      ensures w.Room(0) && w.Written() == old(w.Written()) + EncodeField(Field("emu", Doc(EmuFields(emu))))
      ensures emu == old(emu)
    {
      hide EncodeField, EncodeAll, WrittenUpTo;
      ghost var before, fields := w.Written(), EmuFields(emu);
      var header, start := Open(w, "emu", fields);
      PutInt(w, "frame-count", emu.frames, start, fields, 0);
      PutInt(w, "cpu-ticks", emu.ticks, start, fields, 1);
      PutInt(w, "exec-cycles", emu.execute, start, fields, 2);
      PutInt(w, "video-count", emu.video, start, fields, 3);
      PutInt(w, "sleep-cycles", emu.sleep, start, fields, 4);
      PutInt(w, "serial-irq-cycles", emu.serial, start, fields, 5);
      PutInt(w, "rand-state", emu.random, start, fields, 6);
      PutInt(w, "gbp-state", emu.gbp, start, fields, 7);
      Close(w, header, before, start, "emu", fields);
    }

    /** Restores the scheduler; fields that older states lack get their defaults. */
    method ReadEmu(s: Bytes, p: nat, ghost e: View) returns (ok: bool)
      requires WalkAt(s, p, e) && EmuAccepts(e)
      modifies `emu
      ensures ok && emu == EmuFrom(e, old(emu))
    {
      hide WalkAt, Sees, Encode, Sane, Plain, FirstWord;
      NamesArePlain();
      var ticks, execute, video, sleep;
      ok, ticks := ReadInt32(s, p, "cpu-ticks", e);
      ok, execute := ReadInt32(s, p, "exec-cycles", e);
      ok, video := ReadInt32(s, p, "video-count", e);
      ok, sleep := ReadInt32(s, p, "sleep-cycles", e);
      emu := emu.(ticks := ticks, execute := execute, video := video, sleep := sleep);
      var frames := ReadDefault(s, p, "frame-count", 600, e);
      var serial := ReadDefault(s, p, "serial-irq-cycles", 0, e);
      emu := emu.(frames := frames, serial := serial);
      var random := ReadDefault(s, p, "rand-state", emu.random, e);
      var gbp := ReadDefault(s, p, "gbp-state", emu.gbp, e);
      emu := emu.(random := random, gbp := gbp);
      ok := true;
    }

    method WriteTimer(w: Writer, i: nat)
      requires i < timers.Length && w.Room(|EncodeField(Field(Digit(i), Doc(TimerFields(timers[i]))))|)
      modifies w, w.buf
      ensures w.Room(0)
      ensures w.Written() == old(w.Written()) + EncodeField(Field(Digit(i), Doc(TimerFields(timers[i]))))
      ensures timers[..] == old(timers[..])
    {
      hide EncodeField, EncodeAll, WrittenUpTo;
      var t := timers[i];
      ghost var before, fields := w.Written(), TimerFields(t);
      var header, start := Open(w, Digit(i), fields);
      PutInt(w, "count", t.count, start, fields, 0);
      PutInt(w, "reload", t.reload, start, fields, 1);
      PutInt(w, "prescale", t.prescale, start, fields, 2);
      PutInt(w, "freq-step", t.step, start, fields, 3);
      PutInt(w, "dsc", t.channels, start, fields, 4);
      PutInt(w, "irq", t.irq, start, fields, 5);
      PutInt(w, "status", t.status, start, fields, 6);
      Close(w, header, before, start, Digit(i), fields);
    }

    method WriteTimers(w: Writer)
      requires timers.Length == 4 && w.Room(|EncodeField(Field("timers", Doc(TimersFields(timers[..]))))|)
      modifies w, w.buf
      ensures w.Room(0) && timers[..] == old(timers[..])
      ensures w.Written() == old(w.Written()) + EncodeField(Field("timers", Doc(TimersFields(timers[..]))))
    {
      hide EncodeField, EncodeAll;
      ghost var before, fields := w.Written(), TimersFields(timers[..]);
      var header, start := Open(w, "timers", fields);
      for i := 0 to 4
        invariant WrittenUpTo(w, start, fields, i) && timers[..] == old(timers[..])
      {
        OneMore(fields, i);
        WriteTimer(w, i);
      }
      Close(w, header, before, start, "timers", fields);
    }

    method ReadTimer(s: Bytes, p: nat, i: nat, ghost t: View) returns (ok: bool)
      requires i < timers.Length && WalkAt(s, p, t) && TimerAccepts(t)
      modifies timers
      ensures ok && timers[..] == old(timers[..])[i := TimerFrom(t)]
    {
      hide WalkAt, Sees, Encode, Sane, Plain, FirstWord;
      NamesArePlain();
      var count, reload, prescale, step, channels, irq, status;
      ok, count := ReadInt32(s, p, "count", t);
      ok, reload := ReadInt32(s, p, "reload", t);
      ok, prescale := ReadInt32(s, p, "prescale", t);
      ok, step := ReadInt32(s, p, "freq-step", t);
      ok, channels := ReadInt32(s, p, "dsc", t);
      ok, irq := ReadInt32(s, p, "irq", t);
      ok, status := ReadInt32(s, p, "status", t);
      timers[i] := TimerState(count, reload, prescale, step, channels, irq, status);
    }

    method ReadMain(s: Bytes, ghost w: View) returns (ok: bool)
      requires timers.Length == 4 && WalkAt(s, 0, w) && MainAccepts(w)
      modifies `emu, timers
      ensures ok && emu == EmuFrom(Enter(w, "emu"), old(emu)) && timers[..] == TimersFrom(w)
    {
      hide WalkAt, Sees, Enter, Encode, Sane, EmuAccepts, EmuFrom, TimerAccepts, TimerFrom, Plain, PlaceOf, Digit;
      KeysArePlain();
      var p1 := FindKey(s, 0, "emu", w);
      var p2 := FindKey(s, 0, "timers", w);
      ghost var e, ts := Enter(w, "emu"), Enter(w, "timers");
      ok := ReadEmu(s, p1.value, e);
      for i := 0 to 4
        invariant ok && emu == EmuFrom(e, old(emu))
        invariant forall j | 0 <= j < i :: timers[j] == TimerFrom(Enter(ts, Digit(j)))
      {
        var p := FindKey(s, p2.value, Digit(i), ts);
        ok := ReadTimer(s, p.value, i, Enter(ts, Digit(i)));
      }
    }

    /** Writes a savestate. `input`, `memory` and `sound` are what the other parts of the emulator add. The
        space left over is turned into padding, so that the size is always the same. */
    method SaveState(w: Writer, ghost input: seq<Field>, ghost memory: seq<Field>, ghost sound: seq<Field>,
                     inputBytes: Bytes, memoryBytes: Bytes, soundBytes: Bytes) returns (ghost padding: Bytes)
      requires Sizes() && w.p == 0 && w.buf.Length == STATE_SIZE && w.buf as object !in {regs, spsr, bank}
      requires inputBytes == EncodeAll(input) && memoryBytes == EncodeAll(memory) && soundBytes == EncodeAll(sound)
      requires |EncodeAll(Content(Cpu(), emu, timers[..], input, memory, sound))| + 20 <= STATE_SIZE
      modifies w, w.buf
      ensures w.p == STATE_SIZE == |w.buf[..]|
      ensures w.buf[..] == Encode(Doc(Saved(old(Cpu()), old(emu), old(timers[..]), input, memory, sound, padding)))
    {
      hide EncodeField, EncodeAll, Encode, Word, Wrap, CpuFields, EmuFields, TimersFields;
      ghost var c, e, ts := Cpu(), emu, timers[..];
      ghost var content := Content(c, e, ts, input, memory, sound);
      ContentParts(c, e, ts, input, memory, sound);
      w.Put(Word(0));
      w.WriteInt32("info-magic", MAGIC);
      ghost var body := EncodeField(IntField("info-magic", MAGIC));
      w.WriteInt32("info-version", VERSION);
      Regroup(w.Written(), body, EncodeField(IntField("info-version", VERSION)));
      body := body + EncodeField(IntField("info-version", VERSION));
      WriteCpu(w);
      Regroup(w.Written(), body, EncodeField(Field("cpu", Doc(CpuFields(c)))));
      body := body + EncodeField(Field("cpu", Doc(CpuFields(c))));
      w.Put(inputBytes);
      Regroup(w.Written(), body, inputBytes);
      body := body + inputBytes;
      WriteEmu(w);
      Regroup(w.Written(), body, EncodeField(Field("emu", Doc(EmuFields(e)))));
      body := body + EncodeField(Field("emu", Doc(EmuFields(e))));
      WriteTimers(w);
      Regroup(w.Written(), body, EncodeField(Field("timers", Doc(TimersFields(ts)))));
      body := body + EncodeField(Field("timers", Doc(TimersFields(ts))));
      w.Put(memoryBytes);
      Regroup(w.Written(), body, memoryBytes);
      body := body + memoryBytes;
      w.Put(soundBytes);
      Regroup(w.Written(), body, soundBytes);
      body := body + soundBytes;
      assert body == EncodeAll(content);
      padding := Finish(w, content);
    }

    /** Loads a savestate: size, magic number and version have to match, and all checks to accept. A state that
        is not accepted changes nothing; one that is accepted but cannot be read leaves what was read before. */
    method LoadState(s: Bytes, ghost w: View, others: Others) returns (ok: bool)
      requires Sizes() && WalkAt(s, 0, w)
      modifies `bus, `emu, regs, spsr, bank, timers
      ensures ok <==> Accepted(w) && others.Accept(s) && CpuFits(CpuFrom(w)) && others.Read(s)
      ensures ok ==> Cpu() == CpuFrom(w) && timers[..] == TimersFrom(w) && emu == EmuFrom(Enter(w, "emu"), old(emu))
      ensures !(Accepted(w) && others.Accept(s)) ==>
                Cpu() == old(Cpu()) && emu == old(emu) && timers[..] == old(timers[..])
      ensures Accepted(w) && others.Accept(s) && |CpuFrom(w).regs| == 19 ==> regs[..] == CpuFrom(w).regs
    {
      hide WalkAt, Sees, Enter, Encode, Sane, CpuAccepts, MainAccepts, CpuFrom, TimersFrom, EmuFrom, CpuFits;
      hide ReadWord, FirstWord, Plain;
      InfoNamesArePlain();
      LimitIsFirst(s, w);
      if ReadWord(s, 0) != STATE_SIZE {
        return false;
      }
      var magic := ReadNumber(s, "info-magic", w);
      if magic != Some(MAGIC) {
        return false;
      }
      var version := ReadNumber(s, "info-version", w);
      if version != Some(VERSION) {
        return false;
      }
      ok := Check(s, w, others);
      if ok {
        ok := ReadCpu(s, w);
      }
      ok := ok && others.inputRead(s);
      if ok {
        ok := ReadMain(s, w);
      }
      ok := ok && others.memoryRead(s) && others.soundRead(s);
    }
  }

  /** A number of the whole state, if it is there. */
  method ReadNumber(s: Bytes, key: string, ghost w: View) returns (r: Option<u32>)
    requires Plain(key) && WalkAt(s, 0, w)
    ensures r == if Sees(w, key).Some? then Some(FirstWord(Sees(w, key).value)) else None
  {
    var ok, value := ReadInt32(s, 0, key, w);
    r := if ok then Some(value) else None;
  }

  /** The checks of all parts, in their order. */
  method Check(s: Bytes, ghost w: View, others: Others) returns (ok: bool)
    requires WalkAt(s, 0, w)
    ensures ok <==> CpuAccepts(w) && MainAccepts(w) && others.Accept(s)
  {
    hide WalkAt, CpuAccepts, MainAccepts;
    ok := CheckCpu(s, w);
    ok := ok && others.inputCheck(s);
    if ok {
      ok := CheckMain(s, w);
    }
    ok := ok && others.memoryCheck(s) && others.soundCheck(s);
  }

  lemma LimitIsFirst(s: Bytes, w: View)
    requires WalkAt(s, 0, w)
    ensures 4 <= |s| && ReadWord(s, 0) == w.limit
  {
  }

  /** The savestates whose size, magic number and version are right, and that processor and scheduler accept. */
  predicate Accepted(w: View) {
    && w.limit == STATE_SIZE
    && Sees(w, "info-magic").Some? && FirstWord(Sees(w, "info-magic").value) == MAGIC
    && Sees(w, "info-version").Some? && FirstWord(Sees(w, "info-version").value) == VERSION
    && CpuAccepts(w) && MainAccepts(w)
  }

  /** The arrays have the lengths of their destinations. */
  predicate CpuFits(c: CpuState) { |c.regs| == 19 && |c.spsr| == 6 && |c.bank| == 49 }

  ghost predicate AllSane(fields: seq<Field>) {
    forall f | f in fields :: Plain(f.name) && Sane(f.value)
  }

  lemma SmallerThan(fields: seq<Field>, k: nat)
    requires k < |fields|
    ensures |Encode(fields[k].value)| <= |EncodeAll(fields)|
  {
    OneMore(fields, k);
  }

  lemma TickNamesArePlain()
    ensures Plain("frame-count") && Plain("cpu-ticks")
  {
  }

  lemma CycleNamesArePlain()
    ensures Plain("exec-cycles") && Plain("video-count")
  {
  }

  lemma SleepNamesArePlain()
    ensures Plain("sleep-cycles") && Plain("serial-irq-cycles")
  {
  }

  lemma OptionNamesArePlain()
    ensures Plain("rand-state") && Plain("gbp-state")
  {
  }

  lemma CountNamesArePlain()
    ensures Plain("count") && Plain("reload") && Plain("prescale")
  {
  }

  lemma TimerNamesArePlain()
    ensures Plain("freq-step") && Plain("dsc") && Plain("irq") && Plain("status")
  {
  }

  lemma DigitsArePlain()
    ensures forall i :: Plain(Digit(i))
  {
  }

  lemma RegisterNamesArePlain()
    ensures Plain("regs") && Plain("spsr") && Plain("regmod") && Plain("bus-value")
  {
  }

  lemma TopNamesArePlain()
    ensures Plain("cpu") && Plain("emu") && Plain("timers")
  {
  }

  lemma InfoNamesArePlain()
    ensures Plain("info-magic") && Plain("info-version") && Plain("zpadding")
  {
  }

  lemma NamesArePlain()
    ensures Plain("frame-count") && Plain("cpu-ticks") && Plain("exec-cycles") && Plain("video-count")
    ensures Plain("sleep-cycles") && Plain("serial-irq-cycles") && Plain("rand-state") && Plain("gbp-state")
    ensures Plain("count") && Plain("reload") && Plain("prescale") && Plain("freq-step") && Plain("dsc")
    ensures Plain("irq") && Plain("status")
  {
    hide Plain;
    TickNamesArePlain();
    CycleNamesArePlain();
    SleepNamesArePlain();
    OptionNamesArePlain();
    CountNamesArePlain();
    TimerNamesArePlain();
  }

  lemma TimerIsSane(t: TimerState)
    ensures AllSane(TimerFields(t))
  {
    hide Plain, Sane;
    IntsAreSane();
    NamesArePlain();
  }

  lemma TimersAreSane(ts: seq<TimerState>)
    requires |ts| == 4 && |EncodeAll(TimersFields(ts))| < 0x8000_0000
    ensures AllSane(TimersFields(ts))
  {
    hide Plain, EncodeAll, TimerFields, Digit;
    var fs := TimersFields(ts);
    DigitsArePlain();
    forall i | 0 <= i < 4
      ensures Plain(fs[i].name) && Sane(fs[i].value)
    {
      SmallerThan(fs, i);
      TimerIsSane(ts[i]);
    }
  }

  /** The buffer of a savestate holds a document that can be searched. */
  lemma SavedIsDocument(s: Bytes, c: CpuState, e: EmuState, ts: seq<TimerState>, input: seq<Field>,
                        memory: seq<Field>, sound: seq<Field>, padding: Bytes)
    requires |c.regs| < MAX_ITEMS && |c.spsr| < MAX_ITEMS && |c.bank| < MAX_ITEMS && |ts| == 4
    requires AllSane(input) && AllSane(memory) && AllSane(sound) && |s| == STATE_SIZE
    requires s == Encode(Doc(Saved(c, e, ts, input, memory, sound, padding)))
    ensures DocAt(s, 0, Saved(c, e, ts, input, memory, sound, padding))
  {
    hide EncodeAll, Encode, CpuFields, EmuFields, TimersFields, Sane, Plain;
    var fs := Saved(c, e, ts, input, memory, sound, padding);
    var n := |input|;
    WholeSize(fs);
    CpuIsSane(c);
    EmuIsSane(e);
    NestedIsSmall(fs, 4 + n, TimersFields(ts));
    TimersAreSane(ts);
    NestedIsSane(fs, 2, CpuFields(c));
    NestedIsSane(fs, 3 + n, EmuFields(e));
    NestedIsSane(fs, 4 + n, TimersFields(ts));
    BlobIsSane(fs, |fs| - 1, padding);
    TopNamesArePlain();
    InfoNamesArePlain();
    IntsAreSane();
    assert AllSane([fs[0]] + [fs[1]] + [fs[2]]);
    assert fs == [fs[0]] + [fs[1]] + [fs[2]] + input + [fs[3 + n]] + [fs[4 + n]] + memory + sound + [fs[|fs| - 1]];
    assert AllSane(fs);
    WholeIsDocument(s, fs);
  }

  lemma IntsAreSane()
    ensures forall v :: Sane(Int(v))
  {
  }

  lemma WholeSize(fs: seq<Field>)
    requires |Encode(Doc(fs))| == STATE_SIZE
    ensures |EncodeAll(fs)| < 0x8000_0000
  {
  }

  lemma WholeIsDocument(s: Bytes, fs: seq<Field>)
    requires s == Encode(Doc(fs)) && |s| == STATE_SIZE && AllSane(fs)
    ensures DocAt(s, 0, fs)
  {
    assert s[0..|s|] == s;
  }

  lemma NestedIsSmall(fs: seq<Field>, k: nat, fields: seq<Field>)
    requires k < |fs| && |EncodeAll(fs)| < 0x8000_0000 && fs[k].value == Doc(fields)
    ensures |EncodeAll(fields)| < 0x8000_0000
  {
    SmallerThan(fs, k);
    assert |Encode(Doc(fields))| == 4 + |EncodeAll(fields)| + 1;
  }

  lemma NestedIsSane(fs: seq<Field>, k: nat, fields: seq<Field>)
    requires k < |fs| && |EncodeAll(fs)| < 0x8000_0000 && fs[k].value == Doc(fields) && AllSane(fields)
    ensures Sane(fs[k].value)
  {
    NestedIsSmall(fs, k, fields);
  }

  lemma BlobIsSane(fs: seq<Field>, k: nat, data: Bytes)
    requires k < |fs| && |EncodeAll(fs)| < 0x8000_0000 && fs[k].value == Bin(data)
    ensures Sane(fs[k].value)
  {
    SmallerThan(fs, k);
    assert |Encode(Bin(data))| == 4 + 1 + |data|;
  }

  lemma CpuIsSane(c: CpuState)
    requires |c.regs| < MAX_ITEMS && |c.spsr| < MAX_ITEMS && |c.bank| < MAX_ITEMS
    ensures AllSane(CpuFields(c))
  {
    hide Plain, EncodeAll;
    RegisterNamesArePlain();
    IntsAreSane();
  }

  lemma EmuIsSane(e: EmuState)
    ensures AllSane(EmuFields(e))
  {
    hide Plain, Sane;
    IntsAreSane();
    NamesArePlain();
  }

  /** A state written from any arrays is accepted; it can be read exactly if they have the lengths of their
      destinations, and then brings back what was saved. */
  lemma SavedStateLoads(c: CpuState, e: EmuState, ts: seq<TimerState>, input: seq<Field>, memory: seq<Field>,
                        sound: seq<Field>, padding: Bytes, now: EmuState)
    requires |ts| == 4 && OwnNamesFree(input)
    requires |Encode(Doc(Saved(c, e, ts, input, memory, sound, padding)))| == STATE_SIZE
    ensures var w := Whole(Saved(c, e, ts, input, memory, sound, padding));
            && Accepted(w) && (CpuFits(CpuFrom(w)) <==> CpuFits(c))
            && CpuFrom(w) == c && EmuFrom(Enter(w, "emu"), now) == e && TimersFrom(w) == ts
  {
    hide Lookup, Content, CpuAccepts, MainAccepts, CpuFrom, TimersFrom, EmuFrom, EncodeAll, Word, Wrap, Enter;
    var rest := [Field("zpadding", Bin(padding))];
    var fs := Saved(c, e, ts, input, memory, sound, padding);
    ContentLookups(c, e, ts, input, memory, sound, rest);
    ContentReadsBack(c, e, ts, input, memory, sound, rest, now);
    WholeSeesAll(fs, "info-magic");
    WholeSeesAll(fs, "info-version");
  }

  // ----------------------------------------------------------------------------------------------
  // Saving and loading again
  // ----------------------------------------------------------------------------------------------

  /** One emulator saves, another loads the same bytes: if the other parts accept and read them, it holds the same
      processor, scheduler and timers. */
  method SaveThenLoad(a: Emulator, b: Emulator, w: Writer, ghost input: seq<Field>, ghost memory: seq<Field>,
                      ghost sound: seq<Field>, inputBytes: Bytes, memoryBytes: Bytes, soundBytes: Bytes, others: Others)
    returns (ok: bool)
    requires a.Sizes() && b.Sizes() && w.p == 0 && w.buf.Length == STATE_SIZE
    requires w.buf as object !in {a.regs, a.spsr, a.bank, b.regs, b.spsr, b.bank}
    requires inputBytes == EncodeAll(input) && memoryBytes == EncodeAll(memory) && soundBytes == EncodeAll(sound)
    requires AllSane(input) && AllSane(memory) && AllSane(sound) && OwnNamesFree(input)
    requires |EncodeAll(Content(a.Cpu(), a.emu, a.timers[..], input, memory, sound))| + 20 <= STATE_SIZE
    modifies w, w.buf, b, b.regs, b.spsr, b.bank, b.timers
    ensures ok ==> b.Cpu() == old(a.Cpu()) && b.emu == old(a.emu) && b.timers[..] == old(a.timers[..])
    ensures ok <==> others.Accept(w.buf[..]) && others.Read(w.buf[..])
  {
    hide Saved, Content, Encode, EncodeAll, Accepted, CpuFrom, TimersFrom, EmuFrom, DocAt, WalkAt, Enter, Whole;
    ghost var c, e, ts := a.Cpu(), a.emu, a.timers[..];
    ghost var padding := a.SaveState(w, input, memory, sound, inputBytes, memoryBytes, soundBytes);
    ghost var fs := Saved(c, e, ts, input, memory, sound, padding);
    var s := w.buf[..];
    SavedIsDocument(s, c, e, ts, input, memory, sound, padding);
    DocIsWalk(s, 0, fs);
    SavedStateLoads(c, e, ts, input, memory, sound, padding, b.emu);
    ok := b.LoadState(s, Whole(fs), others);
  }

  // ----------------------------------------------------------------------------------------------
  // A state that is accepted and cannot be read
  // ----------------------------------------------------------------------------------------------

  lemma {:induction false} SizeBound(fields: seq<Field>, bound: nat)
    requires forall f | f in fields :: |EncodeField(f)| <= bound
    ensures |EncodeAll(fields)| <= bound * |fields|
  {
    hide EncodeField;
    if fields != [] {
      SizeBound(fields[1..], bound);
      var n := |fields[1..]|;
      assert bound * |fields| == bound + bound * n;
    }
  }

  const NO_TIMER := TimerState(0, 0, 0, 0, 0, 0, 0)
  const NO_EMU := EmuState(0, 0, 0, 0, 0, 0, 0, 0)

  /** A processor with all registers seven, and one saved status register too few. */
  const SHORT_CPU := CpuState(seq(19, _ => 7), seq(5, _ => 0), seq(49, _ => 0), 0)

  function ShortContent(): seq<Field> { Content(SHORT_CPU, NO_EMU, seq(4, _ => NO_TIMER), [], [], []) }

  function ShortState(): seq<Field> {
    var n := STATE_SIZE - 20 - |EncodeAll(ShortContent())|;
    Saved(SHORT_CPU, NO_EMU, seq(4, _ => NO_TIMER), [], [], [], seq(if n > 0 then n else 0, _ => 0))
  }

  lemma ShortContentFits()
    ensures |EncodeAll(ShortContent())| <= 20000
  {
    hide EncodeAll;
    var cpu, emu, timer := CpuFields(SHORT_CPU), EmuFields(NO_EMU), TimerFields(NO_TIMER);
    var timers := TimersFields(seq(4, _ => NO_TIMER));
    SizeBound(cpu, 500);
    SizeBound(emu, 50);
    SizeBound(timer, 50);
    forall f | f in timers
      ensures |EncodeField(f)| <= 500
    {
      assert f.value == Doc(timer);
    }
    SizeBound(timers, 500);
    SizeBound(ShortContent(), 4000);
  }

  lemma ShortStateSize()
    ensures |Encode(Doc(ShortState()))| == STATE_SIZE
  {
    hide EncodeAll, Content;
    ShortContentFits();
    var n := STATE_SIZE - 20 - |EncodeAll(ShortContent())|;
    var f := Field("zpadding", Bin(seq(n, _ => 0)));
    EncodeAppend(ShortContent(), [f]);
    EncodeOne(f);
  }

  /** Both checks accept the state, and reading it is bound to fail. */
  lemma ShortStateAccepted()
    ensures var w := Whole(ShortState()); WalkAt(Encode(Doc(ShortState())), 0, w) && Accepted(w)
    ensures CpuFrom(Whole(ShortState())) == SHORT_CPU && !CpuFits(SHORT_CPU)
  {
    hide Saved, Content, Encode, EncodeAll, Accepted, CpuFrom, TimersFrom, EmuFrom, DocAt, WalkAt, Enter, Whole;
    hide CpuFits;
    var n := STATE_SIZE - 20 - |EncodeAll(ShortContent())|;
    var padding := seq(if n > 0 then n else 0, _ => 0);
    var ts := seq(4, _ => NO_TIMER);
    ShortStateSize();
    SavedIsDocument(Encode(Doc(ShortState())), SHORT_CPU, NO_EMU, ts, [], [], [], padding);
    DocIsWalk(Encode(Doc(ShortState())), 0, ShortState());
    SavedStateLoads(SHORT_CPU, NO_EMU, ts, [], [], [], padding, NO_EMU);
    ShortDoesNotFit();
  }

  lemma ShortDoesNotFit()
    ensures !CpuFits(SHORT_CPU)
  {
  }

  /** Loading it fails although every check has accepted it, and the registers have been overwritten. */
  method LoadHalfway() returns (ok: bool, a: Emulator)
    ensures fresh(a) && !ok && a.regs[..] == seq(19, _ => 7)
  {
    hide Encode, ShortState, Accepted, CpuFrom, WalkAt, Whole;
    var s := Encode(Doc(ShortState()));
    ShortStateAccepted();
    var yes := (s: Bytes) => true;
    a := new Emulator();
    ok := a.LoadState(s, Whole(ShortState()), Others(yes, yes, yes, yes, yes, yes));
  }

  lemma Regroup(all: Bytes, body: Bytes, more: Bytes)
    requires all == Word(0) + body + more
    ensures all == Word(0) + (body + more)
  {
  }

  /** The fields of a savestate. */
  function Saved(c: CpuState, e: EmuState, ts: seq<TimerState>, input: seq<Field>, memory: seq<Field>,
                 sound: seq<Field>, padding: Bytes): seq<Field>
    requires |ts| == 4
  {
    Content(c, e, ts, input, memory, sound) + [Field("zpadding", Bin(padding))]
  }

  lemma ContentParts(c: CpuState, e: EmuState, ts: seq<TimerState>,
                     input: seq<Field>, memory: seq<Field>, sound: seq<Field>)
    requires |ts| == 4
    ensures EncodeAll(Content(c, e, ts, input, memory, sound)) ==
              EncodeField(IntField("info-magic", MAGIC)) + EncodeField(IntField("info-version", VERSION)) +
              EncodeField(Field("cpu", Doc(CpuFields(c)))) + EncodeAll(input) +
              EncodeField(Field("emu", Doc(EmuFields(e)))) + EncodeField(Field("timers", Doc(TimersFields(ts)))) +
              EncodeAll(memory) + EncodeAll(sound)
  {
    hide EncodeField, CpuFields, EmuFields, TimersFields;
    var magic, version := IntField("info-magic", MAGIC), IntField("info-version", VERSION);
    var cpu, emu := Field("cpu", Doc(CpuFields(c))), Field("emu", Doc(EmuFields(e)));
    var timers := Field("timers", Doc(TimersFields(ts)));
    EncodeAppend([magic, version] + [cpu] + input + [emu] + [timers] + memory, sound);
    EncodeAppend([magic, version] + [cpu] + input + [emu] + [timers], memory);
    EncodeAppend([magic, version] + [cpu] + input + [emu], [timers]);
    EncodeAppend([magic, version] + [cpu] + input, [emu]);
    EncodeAppend([magic, version] + [cpu], input);
    EncodeAppend([magic, version], [cpu]);
    EncodeAppend([magic], [version]);
    assert [magic] + [version] == [magic, version];
    EncodeOne(magic);
    EncodeOne(version);
    EncodeOne(cpu);
    EncodeOne(emu);
    EncodeOne(timers);
  }

  lemma EncodeOne(f: Field)
    ensures EncodeAll([f]) == EncodeField(f)
  {
    assert EncodeAll([f]) == EncodeField(f) + EncodeAll([]);
  }

  /** Pads what has been written to the full size, and closes the document. */
  method Finish(w: Writer, ghost content: seq<Field>) returns (ghost padding: Bytes)
    requires w.buf.Length == STATE_SIZE && w.Room(16) && w.Written() == Word(0) + EncodeAll(content)
    modifies w, w.buf
    ensures w.p == STATE_SIZE == |w.buf[..]|
    ensures w.buf[..] == Encode(Doc(content + [Field("zpadding", Bin(padding))]))
  {
    hide EncodeAll, Word, Wrap, Str, Encode;
    var size := STATE_SIZE - w.p - 16;
    ghost var body := EncodeAll(content);
    padding := PutPadding(w, size);
    ghost var field := [0x05] + Str("zpadding") + [0] + Word(size) + [0] + padding;
    w.Put([0]);
    ghost var all := w.Written();
    assert all == Word(0) + body + field + [0];
    assert all[..0] == [] && all[4..] == body + field + [0];
    w.Patch(0, Word(w.p));
    PaddingEncodes(content, padding, size);
    assert w.buf[..] == w.Written();
  }

  /** A blob of `size` bytes, left as they are in the buffer. */
  method PutPadding(w: Writer, size: u32) returns (ghost padding: Bytes)
    requires w.Room(15 + size)
    modifies w, w.buf
    ensures w.Room(0) && |padding| == size
    ensures w.Written() == old(w.Written()) + ([0x05] + Str("zpadding") + [0] + Word(size) + [0] + padding)
  {
    hide Word, Str;
    w.WriteHeader(0x05, "zpadding");
    w.Put(Word(size));
    w.Put([0]);
    padding := w.buf[w.p..w.p + size];
    w.p := w.p + size;
  }

  lemma PaddingEncodes(content: seq<Field>, padding: Bytes, size: nat)
    requires |padding| == size && 4 + |EncodeAll(content)| + 16 + size == STATE_SIZE
    ensures var field := [0x05] + Str("zpadding") + [0] + Word(size) + [0] + padding;
            Encode(Doc(content + [Field("zpadding", Bin(padding))])) ==
            Word(STATE_SIZE) + (EncodeAll(content) + field + [0])
  {
    hide Word, Wrap, Str;
    var f := Field("zpadding", Bin(padding));
    WrapSame(size);
    EncodeAppend(content, [f]);
    EncodeOne(f);
    assert Encode(f.value) == Word(size) + [0] + padding;
    assert EncodeField(f) == [0x05] + Str("zpadding") + [0] + (Word(size) + [0] + padding);
    WrapSame(STATE_SIZE);
  }
}
