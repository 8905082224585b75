/** The serial port: a transfer is started by a write to its control register and completes some
    cycles later, as told by a countdown that the scheduler advances. */
module Serial {
  import opened Basics

  datatype Mode = Normal | Multi | Uart | Gpio | Joybus

  /** What is plugged into the port. */
  datatype Device = Disabled | GbPlayer | Rfu | Poke | AdvanceWars1 | AdvanceWars2 | Auto {
    /** The devices that are polled whenever time passes. */
    predicate Polled() { Rfu? || Poke? || AdvanceWars1? || AdvanceWars2? }
  }

  // The bits of the control register that matter.
  const MASTER: bv16 := 0x0001
  const FAST: bv16 := 0x0002
  const SI: bv16 := 0x0004
  const SO: bv16 := 0x0008
  const START: bv16 := 0x0080
  const WIDE: bv16 := 0x1000
  const LINK: bv16 := 0x2000
  const IRQ_ENABLE: bv16 := 0x4000

  predicate Has(c: bv16, bit: bv16) { c & bit != 0 }

  function Set(c: bv16, bit: bv16): bv16 { c | bit }

  function Clear(c: bv16, bit: bv16): bv16 { c & !bit }

  /** The mode, by the control register and the general purpose register. */
  function ModeOf(c: bv16, g: bv16): Mode {
    if Has(g, 0x8000) then
      if Has(g, 0x4000) then Joybus else Gpio
    else if Has(c, LINK) then
      if Has(c, WIDE) then Uart else Multi
    else Normal
  }

  /** What a write keeps of the value written and of the register. */
  function Masked(value: bv16, before: bv16): bv16 { (value & 0x7F8B) | (before & SI) }

  /** Multiplayer mode reports that all are ready, the player number, and whether this is a child. */
  function LinkStatus(client: bv16): bv16 { 0x8 | (client << 4) | (if client != 0 then 0x4 else 0) }

  function Linked(c: bv16, client: bv16): bv16 { (c & 0xFF83) | LinkStatus(client) }

  /** The register after a write of `value`: the wireless adapter answers on the incoming data line. */
  function Written(value: bv16, before: bv16, g: bv16, device: Device, client: bv16): bv16 {
    var c := Masked(value, before);
    match ModeOf(c, g)
    case Normal => if device.Rfu? then Acknowledged(c, before) else c
    case Multi => Linked(c, client)
    case _ => c
  }

  /** As clock master the guest learns that the adapter is ready when it raises its line; otherwise the incoming
      line follows the outgoing one. */
  function Acknowledged(c: bv16, before: bv16): bv16 {
    if Has(c, SO) == Has(before, SO) then c
    else if Has(c, MASTER) then if Has(c, SO) then Clear(c, SI) else c
    else if Has(c, SO) then Set(c, SI) else Clear(c, SI)
  }

  /** How long the transfer that a write asks for takes, or zero if it asks for none. */
  function Requested(value: bv16, g: bv16, device: Device, client: bv16, clients: nat): nat {
    match ModeOf(value, g)
    case Normal => NormalRequest(value, device)
    case Multi => MultiRequest(value, client, clients)
    case _ => 0
  }

  function NormalRequest(c: bv16, device: Device): nat {
    if device.Rfu? && Has(c, START) && Has(c, MASTER) then
      (if Has(c, FAST) then 67 else 524) * (if Has(c, WIDE) then 4 else 1)
    else if device.GbPlayer? && Has(c, START) && !Has(c, MASTER) then 8192
    else 0
  }

  function MultiRequest(c: bv16, client: bv16, clients: nat): nat {
    if Has(c, START) && client == 0 then MultiTime(c) * (clients + 1) else 0
  }

  /** The time of one multiplayer exchange for each player, by baud rate. */
  function MultiTime(c: bv16): (r: nat)
    ensures r > 0
  {
    if Has(c, FAST) then if Has(c, MASTER) then 2621 else 5242
    else if Has(c, MASTER) then 7864 else 31457
  }

  // ----------------------------------------------------------------------------------------------
  // How long transfers take
  // ----------------------------------------------------------------------------------------------

  /** The cycles of the CPU in a second. */
  const CLOCK := 0x100_0000

  /** Bits per second in multiplayer mode, by the two lowest bits of the control register. */
  const BAUD: seq<nat> := [9600, 38400, 57600, 115200]

  /** Sending `bits` bits at a rate takes this many cycles, rounded down. */
  ghost predicate Takes(cycles: nat, bits: nat, rate: nat) {
    cycles * rate <= CLOCK * bits < (cycles + 1) * rate
  }

  /** A multiplayer exchange takes 18 bits for each player at the rate asked for. */
  lemma MultiTimeIsExact(c: bv16)
    ensures Takes(MultiTime(c), 18, BAUD[(c & 3) as int])
  {
    hide Has;
    RateBits(c);
  }

  lemma RateBits(c: bv16)
    ensures (c & 3) as int == (if Has(c, FAST) then 2 else 0) + (if Has(c, MASTER) then 1 else 0)
  {
    var rate := c & 3;
    assert rate == (if Has(c, FAST) then 2 else 0) | (if Has(c, MASTER) then 1 else 0);
    assert rate == 0 || rate == 1 || rate == 2 || rate == 3;
  }

  /** The adapter exchanges 8 or 32 bits, at two megahertz or a quarter of one, when the guest drives the clock; the
      GB Player 32 bits at 64 kilohertz when the guest does not. Nothing else is answered. The time of the adapter is
      rounded for eight bits, which makes the slow exchange of 32 a cycle shorter than it would be otherwise. */
  lemma NormalTimeIsExact(c: bv16, device: Device)
    ensures var bytes, cycles := if Has(c, WIDE) then 4 else 1, NormalRequest(c, device);
            && (cycles > 0 <==> Has(c, START) && if Has(c, MASTER) then device.Rfu? else device.GbPlayer?)
            && (cycles > 0 && device.Rfu? ==>
                  exists each :: cycles == bytes * each && Takes(each, 8, if Has(c, FAST) then 2000000 else 256000))
            && (cycles > 0 && device.GbPlayer? ==> Takes(cycles, 32, 0x1_0000))
  {
    hide Has;
    assert Takes(67, 8, 2000000) && Takes(524, 8, 256000);
  }

  // ----------------------------------------------------------------------------------------------
  // Bits
  // ----------------------------------------------------------------------------------------------

  /** Two words agree on the bits of a mask. */
  predicate Agree(c: bv16, d: bv16, mask: bv16) { c & mask == d & mask }

  lemma AgreeNarrows(c: bv16, d: bv16, wide: bv16, narrow: bv16)
    requires Agree(c, d, wide) && wide & narrow == narrow
    ensures Agree(c, d, narrow)
  {
    assert (c & wide) & narrow == c & narrow && (d & wide) & narrow == d & narrow;
  }

  lemma AgreeBit(c: bv16, d: bv16, mask: bv16, bit: bv16)
    requires Agree(c, d, mask) && mask & bit == bit
    ensures Has(c, bit) == Has(d, bit)
  {
    AgreeNarrows(c, d, mask, bit);
  }

  /** What two words agree on under this mask, they agree on bit by bit. */
  lemma SameBits(c: bv16, d: bv16)
    requires Agree(c, d, 0x7F83)
    ensures Has(c, MASTER) == Has(d, MASTER) && Has(c, FAST) == Has(d, FAST) && Has(c, START) == Has(d, START)
    ensures Has(c, WIDE) == Has(d, WIDE) && Has(c, LINK) == Has(d, LINK) && Has(c, IRQ_ENABLE) == Has(d, IRQ_ENABLE)
  {
    hide Agree, Has;
    AgreeBit(c, d, 0x7F83, MASTER);
    AgreeBit(c, d, 0x7F83, FAST);
    AgreeBit(c, d, 0x7F83, START);
    AgreeBit(c, d, 0x7F83, WIDE);
    AgreeBit(c, d, 0x7F83, LINK);
    AgreeBit(c, d, 0x7F83, IRQ_ENABLE);
  }

  lemma MaskedBits(value: bv16, before: bv16)
    ensures Agree(Masked(value, before), value, 0x7F8B) && Agree(Masked(value, before), 0, 0x8070)
    ensures Agree(Masked(value, before), before, SI)
  {
  }

  lemma LinkedBits(c: bv16, client: bv16)
    requires client < 8
    ensures Agree(Linked(c, client), c, 0xFF83)
  {
  }

  /** The guest reads back that all are ready, whether it is a child, and its number. */
  predicate TellsLink(c: bv16, client: bv16) {
    Has(c, 0x8) && (Has(c, SI) <==> client != 0) && (c & 0x70) >> 4 == client
  }

  lemma LinkedTells(c: bv16, client: bv16)
    requires client < 8
    ensures TellsLink(Linked(c, client), client)
  {
  }

  /** The adapter's answer on the incoming line. With an external clock the line stays equal to the outgoing one;
      as clock master the guest sees it go down, and never up, and down only when it raises its own. */
  predicate AnswersLine(before: bv16, after: bv16) {
    if !Has(after, MASTER) then Has(before, SI) == Has(before, SO) ==> Has(after, SI) == Has(after, SO)
    else Has(after, SI) <==> Has(before, SI) && !(Has(after, SO) && !Has(before, SO))
  }

  lemma LineAnswers(c: bv16, before: bv16)
    requires Agree(c, before, SI)
    ensures AnswersLine(before, Acknowledged(c, before))
    ensures Has(Acknowledged(c, before), SO) == Has(c, SO) && Has(Acknowledged(c, before), MASTER) == Has(c, MASTER)
  {
    hide Agree, Has, Set, Clear;
    LineBits(c);
    LineValues(c, before);
    AgreeBit(Set(c, SI), c, 0xFFFB, SO);
    AgreeBit(Set(c, SI), c, 0xFFFB, MASTER);
    AgreeBit(Clear(c, SI), c, 0xFFFB, SO);
    AgreeBit(Clear(c, SI), c, 0xFFFB, MASTER);
  }

  lemma LineValues(c: bv16, before: bv16)
    requires Agree(c, before, SI)
    ensures Has(Set(c, SI), SI) && !Has(Clear(c, SI), SI) && Has(c, SI) == Has(before, SI)
  {
  }

  /** What the guest reads back of a write: the status of the link in multiplayer mode, the adapter's answer in normal
      mode, and otherwise its own bits and the incoming line as it was. */
  lemma WrittenTells(value: bv16, before: bv16, g: bv16, device: Device, client: bv16)
    requires client < 8
    ensures var r := Written(value, before, g, device, client);
            match ModeOf(value, g)
            case Multi => TellsLink(r, client)
            case Normal => if device.Rfu? then AnswersLine(before, r) else Agree(r, before, SI)
            case _ => Agree(r, before, SI)
  {
    hide Agree, Has, Masked, Written, Acknowledged, Linked, AnswersLine, TellsLink, ModeOf;
    var c := Masked(value, before);
    WrittenByMode(value, before, g, device, client);
    MaskedBits(value, before);
    MaskedMode(value, before, g);
    LinkedTells(c, client);
    LineAnswers(c, before);
  }

  lemma MaskedMode(value: bv16, before: bv16, g: bv16)
    ensures ModeOf(Masked(value, before), g) == ModeOf(value, g)
  {
    hide Agree, Has, Masked;
    var c := Masked(value, before);
    MaskedBits(value, before);
    AgreeNarrows(c, value, 0x7F8B, 0x7F83);
    SameBits(c, value);
  }

  lemma LineBits(c: bv16)
    ensures Agree(Set(c, SI), c, 0xFFFB) && Agree(Clear(c, SI), c, 0xFFFB)
  {
  }

  lemma AgreeChains(c: bv16, d: bv16, e: bv16, mask: bv16)
    requires Agree(c, d, mask) && Agree(d, e, mask)
    ensures Agree(c, e, mask)
  {
  }

  lemma AgreesWithItself(c: bv16, mask: bv16)
    ensures Agree(c, c, mask)
  {
  }

  /** The word written agrees with the masked one outside the lines and the status of the link. */
  lemma WrittenBits(value: bv16, before: bv16, g: bv16, device: Device, client: bv16)
    requires client < 8
    ensures var c, r := Masked(value, before), Written(value, before, g, device, client);
            Agree(r, c, if ModeOf(c, g).Multi? then 0xFF83 else 0xFFFB)
  {
    hide Agree, Has, Set, Clear, Masked, Linked;
    var c := Masked(value, before);
    LinkedBits(c, client);
    LineBits(c);
    AgreesWithItself(c, 0xFFFB);
  }

  /** Whatever the mode and the device, bits 0, 1 and 7 to 14 are exactly the guest's and bit 15 is clear; outside
      multiplayer mode so is bit 3, and bits 4 to 6 are clear. The mode is the one the guest wrote. */
  lemma GuestSetsItsBits(value: bv16, before: bv16, g: bv16, device: Device, client: bv16)
    requires client < 8
    ensures var r := Written(value, before, g, device, client);
            && Agree(r, value, 0x7F83) && Agree(r, 0, 0x8000)
            && (!ModeOf(value, g).Multi? ==> Agree(r, value, 0x7F8B) && Agree(r, 0, 0x8070))
            && ModeOf(r, g) == ModeOf(value, g)
  {
    hide Agree, Has, Masked, Written;
    var c, r := Masked(value, before), Written(value, before, g, device, client);
    MaskedBits(value, before);
    WrittenBits(value, before, g, device, client);
    MaskedOwn(c, value);
    SameBits(c, value);
    if ModeOf(c, g).Multi? {
      ThroughLink(r, c, value);
    } else {
      ThroughLine(r, c, value);
    }
    SameBits(r, value);
  }

  lemma MaskedOwn(c: bv16, value: bv16)
    requires Agree(c, value, 0x7F8B) && Agree(c, 0, 0x8070)
    ensures Agree(c, value, 0x7F83) && Agree(c, 0, 0x8000)
  {
    hide Agree;
    AgreeNarrows(c, value, 0x7F8B, 0x7F83);
    AgreeNarrows(c, 0, 0x8070, 0x8000);
  }

  lemma ThroughLink(r: bv16, c: bv16, value: bv16)
    requires Agree(r, c, 0xFF83) && Agree(c, value, 0x7F83) && Agree(c, 0, 0x8000)
    ensures Agree(r, value, 0x7F83) && Agree(r, 0, 0x8000)
  {
    hide Agree;
    AgreeNarrows(r, c, 0xFF83, 0x7F83);
    AgreeNarrows(r, c, 0xFF83, 0x8000);
    AgreeChains(r, c, value, 0x7F83);
    AgreeChains(r, c, 0, 0x8000);
  }

  lemma ThroughLine(r: bv16, c: bv16, value: bv16)
    requires Agree(r, c, 0xFFFB) && Agree(c, value, 0x7F8B) && Agree(c, 0, 0x8070)
    ensures Agree(r, value, 0x7F8B) && Agree(r, 0, 0x8070)
    ensures Agree(r, value, 0x7F83) && Agree(r, 0, 0x8000)
  {
    hide Agree;
    AgreeNarrows(r, c, 0xFFFB, 0x7F8B);
    AgreeNarrows(r, c, 0xFFFB, 0x8070);
    AgreeChains(r, c, value, 0x7F8B);
    AgreeChains(r, c, 0, 0x8070);
    MaskedOwn(r, value);
  }

  /** What asks for a transfer comes through the masks. */
  lemma RequestsKept(value: bv16, before: bv16, g: bv16, device: Device, client: bv16, clients: nat)
    requires client < 8
    ensures var c := Masked(value, before);
            Requested(value, g, device, client, clients) ==
              if ModeOf(c, g).Normal? then NormalRequest(c, device)
              else if ModeOf(c, g).Multi? then MultiRequest(Linked(c, client), client, clients)
              else 0
  {
    hide Agree, Has, Masked, Linked;
    var c := Masked(value, before);
    var d := Linked(c, client);
    MaskedBits(value, before);
    AgreeNarrows(c, value, 0x7F8B, 0x7F83);
    SameBits(c, value);
    LinkedBits(c, client);
    AgreeNarrows(d, c, 0xFF83, 0x7F83);
    SameBits(d, c);
  }

  lemma WrittenByMode(value: bv16, before: bv16, g: bv16, device: Device, client: bv16)
    ensures var c := Masked(value, before);
            Written(value, before, g, device, client) ==
              if ModeOf(c, g).Normal? && device.Rfu? then Acknowledged(c, before)
              else if ModeOf(c, g).Multi? then Linked(c, client)
              else c
  {
    hide Has, Masked, Linked, Acknowledged;
  }

  lemma ClearBits(c: bv16)
    ensures !Has(Clear(c, START), START) && Agree(Clear(c, START), c, 0xFF7F)
  {
  }

  lemma SetBits(c: bv16)
    ensures Has(Set(c, SI), SI) && Agree(Set(c, SI), c, 0xFFFB)
  {
  }

  lemma CompletionBits(c: bv16)
    ensures var d := Clear(c, START);
            !Has(d, START) && Agree(d, c, 0xFF7F) && Has(d, IRQ_ENABLE) == Has(c, IRQ_ENABLE)
    ensures var d := Set(Clear(c, START), SI);
            !Has(d, START) && Has(d, SI) && Agree(d, c, 0xFF7B) && Has(d, IRQ_ENABLE) == Has(c, IRQ_ENABLE)
  {
    hide Agree, Has, Set, Clear;
    var cleared, set_ := Clear(c, START), Set(Clear(c, START), SI);
    ClearBits(c);
    SetBits(cleared);
    AgreeBit(cleared, c, 0xFF7F, IRQ_ENABLE);
    AgreeBit(set_, cleared, 0xFFFB, IRQ_ENABLE);
    AgreeBit(set_, cleared, 0xFFFB, START);
    AgreeNarrows(cleared, c, 0xFF7F, 0xFF7B);
    AgreeNarrows(set_, cleared, 0xFFFB, 0xFF7B);
    AgreeChains(set_, cleared, c, 0xFF7B);
  }

  /** It changes neither the mode nor whether the guest enabled the interrupt. */
  lemma CompletionAsks(c: bv16, g: bv16)
    ensures Asks(Clear(c, START), g) == Asks(c, g) && Asks(Set(Clear(c, START), SI), g) == Asks(c, g)
  {
    hide Agree, Has, Set, Clear;
    CompletionBits(c);
    AgreeBit(Clear(c, START), c, 0xFF7F, LINK);
    AgreeBit(Clear(c, START), c, 0xFF7F, WIDE);
    AgreeBit(Set(Clear(c, START), SI), c, 0xFF7B, LINK);
    AgreeBit(Set(Clear(c, START), SI), c, 0xFF7B, WIDE);
  }

  /** What a completed transfer does: outside these two modes nothing shows; in them the busy bit clears,
      an interrupt is raised if the guest enabled it, and every other bit but the data line in stays. */
  predicate Completed(before: bv16, after: bv16, g: bv16, irq: bool) {
    match ModeOf(before, g)
    case Normal =>
      && !Has(after, START) && Has(after, SI) && Agree(after, before, 0xFF7B)
      && irq == Has(before, IRQ_ENABLE)
    case Multi => !Has(after, START) && Agree(after, before, 0xFF7F) && irq == Has(before, IRQ_ENABLE)
    case _ => after == before && !irq
  }

  /** Whether a transfer that completes asks for an interrupt. */
  predicate Asks(c: bv16, g: bv16) {
    Has(c, IRQ_ENABLE) && (ModeOf(c, g).Normal? || ModeOf(c, g).Multi?)
  }

  /** What a port has done so far: transfers completed and interrupts asked for, and whether one more would ask. */
  datatype Record = Record(device: Device, asks: bool, completions: nat, raised: nat)

  /** From one record to a later one: without a device that is polled, every transfer asked for an interrupt or none
      did. */
  ghost predicate Leads(p: Record, q: Record) {
    && q.device == p.device && q.asks == p.asks && q.completions >= p.completions && q.raised >= p.raised
    && (!p.device.Polled() ==> q.raised - p.raised == if p.asks then q.completions - p.completions else 0)
  }

  lemma LeadsOn(p: Record, q: Record, r: Record)
    requires Leads(p, q) && Leads(q, r)
    ensures Leads(p, r) && p.raised <= q.raised <= r.raised
  {
  }

  lemma LeadsToItself(p: Record)
    ensures Leads(p, p)
  {
  }

  class SerialPort {
    var device: Device
    var control: bv16
    var general: bv16
    var irqCycles: nat
    var client: bv16
    var clients: nat

    // Transfers started and completed, and interrupts asked for; the port's own clock, when the pending transfer
    // is due, and by how many cycles the last completed one was late.
    ghost var starts: nat
    ghost var completions: nat
    ghost var raised: nat
    ghost var clock: nat
    ghost var deadline: nat
    ghost var late: nat

    /** At most one transfer is under way, exactly when the countdown runs, and it is due when the
        countdown says. */
    ghost predicate Valid()
      reads this
    {
      && starts == completions + (if irqCycles != 0 then 1 else 0)
      && (irqCycles != 0 ==> deadline == clock + irqCycles)
      && client < 8
    }

    constructor (device: Device)
      ensures Valid() && irqCycles == 0 && this.device == device && starts == 0
    {
      this.device := device;
      control, general, irqCycles, client, clients := 0, 0, 0, 0, 0;
      starts, completions, raised, clock, deadline, late := 0, 0, 0, 0, 0, 0;
    }

    ghost function Records(): Record
      reads `device, `control, `general, `completions, `raised
    {
      Record(device, Asks(control, general), completions, raised)
    }

    /** The guest writes the control register. A transfer it asks for is started unless one is pending,
        which is left as it is. */
    method WriteControl(value: bv16)
      requires Valid()
      modifies `control, `irqCycles, `starts, `deadline
      ensures Valid()
      ensures control == Written(value, old(control), general, device, client)
      ensures old(irqCycles) != 0 ==>
                irqCycles == old(irqCycles) && starts == old(starts) && deadline == old(deadline)
      ensures old(irqCycles) == 0 ==>
                && irqCycles == Requested(value, general, device, client, clients)
                && (starts > old(starts) <==> irqCycles > 0)
    {
      hide Has, Set, Clear, Masked, Linked, Agree, NormalRequest, MultiRequest, Acknowledged, ModeOf, Requested;
      hide Written;
      var oldval := control;
      var newval := Masked(value, oldval);
      RequestsKept(value, oldval, general, device, client, clients);
      WrittenByMode(value, oldval, general, device, client);
      match ModeOf(newval, general) {
      case Normal =>
        StartNormal(newval);
        if device.Rfu? {
          newval := Acknowledge(newval, oldval);
        }
      case Multi =>
        newval := Linked(newval, client);
        StartMulti(newval);
      case _ =>
      }
      control := newval;
    }

    /** A start leaves a pending transfer alone. */
    twostate predicate Started(cycles: nat)
      reads this
    {
      if old(irqCycles) != 0 then
        irqCycles == old(irqCycles) && starts == old(starts) && deadline == old(deadline)
      else irqCycles == cycles && (starts > old(starts) <==> cycles > 0)
    }

    method StartNormal(c: bv16)
      requires Valid()
      modifies `irqCycles, `starts, `deadline
      ensures Valid() && Started(NormalRequest(c, device))
    {
      hide Has;
      if device.Rfu? {
        if Has(c, START) && Has(c, MASTER) && irqCycles == 0 {
          var cycles := if Has(c, FAST) then 67 else 524;
          if Has(c, WIDE) {
            cycles := cycles * 4;
          }
          Schedule(cycles);
        }
      } else if device.GbPlayer? {
        if Has(c, START) && !Has(c, MASTER) && irqCycles == 0 {
          Schedule(8192);
        }
      }
    }

    method StartMulti(c: bv16)
      requires Valid()
      modifies `irqCycles, `starts, `deadline
      ensures Valid() && Started(MultiRequest(c, client, clients))
    {
      hide Has;
      if Has(c, START) && client == 0 && irqCycles == 0 {
        Schedule(MultiTime(c) * (clients + 1));
      }
    }

    /** The wireless adapter's answer on the incoming line. */
    method Acknowledge(c: bv16, before: bv16) returns (r: bv16)
      ensures r == Acknowledged(c, before)
    {
      hide Has, Set, Clear;
      r := c;
      if Has(r, MASTER) {
        if Has(r, SO) && !Has(before, SO) {
          r := Clear(r, SI);
        }
      } else {
        r := SlaveLine(r, before);
      }
    }

    /** With an external clock the incoming line follows the outgoing one: up when it goes up, down when it goes
        down. */
    method SlaveLine(c: bv16, before: bv16) returns (r: bv16)
      ensures r == if Has(c, SO) == Has(before, SO) then c else if Has(c, SO) then Set(c, SI) else Clear(c, SI)
    {
      r := c;
      if Has(r, SO) && !Has(before, SO) {
        r := Set(r, SI);
      }
      if !Has(r, SO) && Has(before, SO) {
        r := Clear(r, SI);
      }
    }

    method Schedule(cycles: nat)
      requires Valid() && irqCycles == 0 && cycles > 0
      modifies `irqCycles, `starts, `deadline
      ensures Valid() && irqCycles == cycles && starts == old(starts) + 1
    {
      irqCycles := cycles;
      starts := starts + 1;
      deadline := clock + cycles;
    }

    /** Whether a transfer completes after `cycles`. */
    predicate Completes(cycles: nat)
      reads `irqCycles
    {
      0 < irqCycles <= cycles
    }

    /** Shows that the transfer is over, and says whether to raise an interrupt. */
    method Complete() returns (irq: bool)
      modifies `control
      ensures Completed(old(control), control, general, irq)
      ensures irq == Asks(old(control), general) == Asks(control, general)
    {
      hide Has, Set, Clear, Agree, ModeOf;
      CompletionBits(control);
      CompletionAsks(control, general);
      irq := false;
      match ModeOf(control, general)
      case Normal =>
        control := Set(Clear(control, START), SI);
        irq := Has(control, IRQ_ENABLE);
      case Multi =>
        control := Clear(control, START);
        irq := Has(control, IRQ_ENABLE);
      case _ =>
    }

    /** Accounts for `cycles`, and says whether to raise an interrupt. `polled` is what polling the
        device said; if that is true, the countdown is not advanced at all. */
    method Update(cycles: nat, polled: bool) returns (irq: bool)
      requires Valid()
      modifies `control, `irqCycles, `completions, `raised, `clock, `late
      ensures Valid() && Leads(old(Records()), Records()) && raised == old(raised) + (if irq then 1 else 0)
      ensures device.Polled() && polled ==>
                irq && unchanged(`control, `irqCycles, `completions, `clock, `late)
      ensures !(device.Polled() && polled) ==>
                && clock == old(clock) + cycles
                && irqCycles == (if old(irqCycles) > cycles then old(irqCycles) - cycles else 0)
                && completions == old(completions) + (if old(Completes(cycles)) then 1 else 0)
                && late == (if old(Completes(cycles)) then clock - deadline else old(late))
                && (if old(Completes(cycles)) then Completed(old(control), control, general, irq)
                    else !irq && control == old(control))
    {
      hide Has, Set, Clear, Agree, Asks, ModeOf, Completed;
      if device.Polled() && polled {
        raised := raised + 1;
        return true;
      }
      irq := false;
      clock := clock + cycles;
      if irqCycles != 0 {
        if irqCycles > cycles {
          irqCycles := irqCycles - cycles;
        } else {
          late := cycles - irqCycles;
          irqCycles := 0;
          completions := completions + 1;
          irq := Complete();
        }
      }
      raised := raised + (if irq then 1 else 0);
    }

    /** The cycles until the next serial event; all ones if there is none. */
    method NextEvent() returns (cycles: nat)
      ensures cycles == if irqCycles != 0 then irqCycles else 0xFFFF_FFFF
    {
      if irqCycles != 0 {
        return irqCycles;
      }
      return 0xFFFF_FFFF;
    }
  }

  // ----------------------------------------------------------------------------------------------
  // Whole runs
  // ----------------------------------------------------------------------------------------------

  /** The countdown after the port has accounted for cs[0], cs[1], ... cycles. */
  function Countdown(pending: nat, cs: seq<nat>): nat
    decreases cs
  {
    if cs == [] then pending
    else Countdown(if pending > cs[0] then pending - cs[0] else 0, cs[1..])
  }

  /** Whether a transfer is over depends only on the cycles in all, not on how they are sliced. */
  lemma {:induction false} OverWhenDue(pending: nat, cs: seq<nat>)
    ensures Countdown(pending, cs) == if pending > Sum(cs) then pending - Sum(cs) else 0
    decreases cs
  {
    if cs != [] {
      OverWhenDue(if pending > cs[0] then pending - cs[0] else 0, cs[1..]);
    }
  }
}
