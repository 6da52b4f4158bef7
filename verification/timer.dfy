/**
  The nRF52 TIMER/COUNTER driver.

  A `Timer` is the driver's handle: which instance it is bound to, which
  typestate it is in (the Rust type parameter `MODE`) and the bit width it
  remembers. The peripheral itself is the register record `Regs`; every
  register write and task trigger the driver makes is one `Access`,
  appended to the record's access log, so the order of writes stays
  visible. Reads are not logged.

  Rust enforces the typestate at compile time. Here an operation that is
  only defined for one mode carries `requires t.mode == ...`, which plays the
  same part: no verified caller can reach it in another mode.
 */
module NrfTimer {
  import opened Bits

  // ---------------------------------------------------------------------------
  // Configuration enums and their register encodings
  // ---------------------------------------------------------------------------

  /** The ten timer frequencies, each a power-of-two division of 16 MHz. */
  datatype Frequency =
    | F16MHz | F8MHz | F4MHz | F2MHz | F1MHz
    | F500kHz | F250kHz | F125kHz | F62500Hz | F31250Hz

  /** The frequency each variant is named after, in hertz. */
  function Hertz(f: Frequency): nat
  {
    match f
    case F16MHz => 16_000_000
    case F8MHz => 8_000_000
    case F4MHz => 4_000_000
    case F2MHz => 2_000_000
    case F1MHz => 1_000_000
    case F500kHz => 500_000
    case F250kHz => 250_000
    case F125kHz => 125_000
    case F62500Hz => 62_500
    case F31250Hz => 31_250
  }

  function Pow2(e: nat): nat
  {
    if e == 0 then 1 else 2 * Pow2(e - 1)
  }

  /** The clock every prescaler setting divides. */
  const BaseClockHz: nat := 16_000_000

  /**
    The PRESCALER value for a frequency: the enum's `u8` discriminant.
    The hardware runs at 16 MHz / 2^PRESCALER, so the discriminant is the
    right register value exactly when it reproduces the variant's frequency.
   */
  function PrescalerValue(f: Frequency): (v: bv32)
    ensures v <= 9
    ensures Hertz(f) * Pow2(v as nat) == BaseClockHz
  {
    match f
    case F16MHz => 0
    case F8MHz => 1
    case F4MHz => 2
    case F2MHz => 3
    case F1MHz => 4
    case F500kHz => 5
    case F250kHz => 6
    case F125kHz => 7
    case F62500Hz => assert Pow2(8) == 256; 8
    case F31250Hz => assert Pow2(9) == 512; 9
  }

  /** Reads a PRESCALER value back as a frequency, if it names one. */
  function FrequencyOf(v: bv32): (r: Option<Frequency>)
    ensures r.Some? <==> v <= 9
    ensures forall f :: r == Some(f) <==> PrescalerValue(f) == v
  {
    if v == 0 then Some(F16MHz)
    else if v == 1 then Some(F8MHz)
    else if v == 2 then Some(F4MHz)
    else if v == 3 then Some(F2MHz)
    else if v == 4 then Some(F1MHz)
    else if v == 5 then Some(F500kHz)
    else if v == 6 then Some(F250kHz)
    else if v == 7 then Some(F125kHz)
    else if v == 8 then Some(F62500Hz)
    else if v == 9 then Some(F31250Hz)
    else None
  }

  /** Counter widths. */
  datatype Bitmode = B8 | B16 | B24 | B32

  /** Number of counting bits each width selects. */
  function Width(b: Bitmode): nat
  {
    match b
    case B8 => 8
    case B16 => 16
    case B24 => 24
    case B32 => 32
  }

  /** The BITMODE field value for a width (the enum's discriminant). */
  function BitmodeValue(b: Bitmode): (v: bv32)
    ensures v <= 3
  {
    match b
    case B8 => 1
    case B16 => 0
    case B24 => 2
    case B32 => 3
  }

  /** Reads a BITMODE value back as a width. */
  function BitmodeOf(v: bv32): (r: Option<Bitmode>)
    ensures r.Some? <==> v <= 3
    ensures forall b :: r == Some(b) <==> BitmodeValue(b) == v
    ensures r.Some? ==> Width(r.value) == if v == 0 then 16 else if v == 1 then 8 else 8 * (v as nat + 1)
  {
    if v == 0 then Some(B16)
    else if v == 1 then Some(B8)
    else if v == 2 then Some(B24)
    else if v == 3 then Some(B32)
    else None
  }

  datatype Option<T> = None | Some(value: T)

  /** Values of the MODE register's field. */
  const ModeTimer: bv32 := 0
  const ModeLowPowerCounter: bv32 := 2

  // ---------------------------------------------------------------------------
  // The driver handle
  // ---------------------------------------------------------------------------

  /** The typestate: the Rust marker types `NotConfigured`, `CounterType`, `TimerType`. */
  datatype Mode = NotConfigured | CounterType | TimerType

  /** The timer instances the driver binds to (those with four CC registers). */
  datatype Instance = Timer0 | Timer1 | Timer2

  /** A driver handle, `Timer<MODE>`. */
  datatype Timer = Timer(instance: Instance, mode: Mode, bitmode: Bitmode)

  /** A capture/compare channel number. */
  type Channel = n: nat | n < 4

  /** A CC channel handle. It can only be built for an existing channel. */
  datatype Cc = Cc(n: Channel)

  /** The outcome of a Rust call that may panic. */
  datatype Checked<T> = Returned(value: T) | Panicked

  // ---------------------------------------------------------------------------
  // The peripheral
  // ---------------------------------------------------------------------------

  /** The four CC registers. */
  type CcBank = s: seq<bv32> | |s| == 4 witness [0, 0, 0, 0]

  /** Task registers: writing 1 to one of them triggers the task. */
  datatype TaskReg =
    | TasksStart | TasksStop | TasksCount | TasksClear | TasksShutdown
    | TasksCapture(n: Channel)

  /** One register access made by the driver. */
  datatype Access =
    | Trigger(task: TaskReg)
    | WriteMode(mode: bv32)
    | WriteBitmode(bitmode: bv32)
    | WritePrescaler(prescaler: bv32)
    | WriteCc(n: Channel, value: bv32)
    | WriteShorts(shorts: bv32)
    | WriteIntenclr(mask: bv32)

  /**
    The timer's registers. `inten` is the interrupt-enable state that
    INTENSET and INTENCLR both read back; writing INTENCLR disables the
    interrupts whose bits are 1 in the written word. `unpredictable` records
    that BITMODE or PRESCALER was once written while the timer ran, which
    the hardware documentation says may give unpredictable behaviour.
   */
  datatype Regs = Regs(
    running: bool,
    counter: bv32,
    mode: bv32,
    bitmode: bv32,
    prescaler: bv32,
    cc: CcBank,
    shorts: bv32,
    inten: bv32,
    unpredictable: bool,
    log: seq<Access>)

  /** Writing MODE. */
  function WriteModeReg(h: Regs, v: bv32): Regs
  {
    h.(mode := v, log := h.log + [WriteMode(v)])
  }

  /**
    Writing BITMODE. Written while the timer runs, it makes the timer's
    behaviour unpredictable.
   */
  function WriteBitmodeReg(h: Regs, v: bv32): Regs
  {
    h.(bitmode := v, unpredictable := h.unpredictable || h.running, log := h.log + [WriteBitmode(v)])
  }

  /** Writing PRESCALER; the same caution as for BITMODE applies. */
  function WritePrescalerReg(h: Regs, v: bv32): Regs
  {
    h.(prescaler := v, unpredictable := h.unpredictable || h.running, log := h.log + [WritePrescaler(v)])
  }

  /** Writing SHORTS. */
  function WriteShortsReg(h: Regs, v: bv32): Regs
  {
    h.(shorts := v, log := h.log + [WriteShorts(v)])
  }

  /** Writing INTENCLR: each 1 in `v` disables that interrupt. */
  function WriteIntenclrReg(h: Regs, v: bv32): Regs
  {
    h.(inten := h.inten & !v, log := h.log + [WriteIntenclr(v)])
  }

  /** SHORTS bit of the COMPARE[n] -> CLEAR shortcut, `1 << n`. */
  function ClearShortMask(n: Channel): bv32
  {
    if n == 0 then 0x001 else if n == 1 then 0x002 else if n == 2 then 0x004 else 0x008
  }

  /** SHORTS bit of the COMPARE[n] -> STOP shortcut, `1 << (8 + n)`. */
  function StopShortMask(n: Channel): bv32
  {
    if n == 0 then 0x100 else if n == 1 then 0x200 else if n == 2 then 0x400 else 0x800
  }

  /** INTEN bit of the COMPARE[n] interrupt, `1 << (16 + n)`. */
  function CompareIntMaskOf(n: Channel): bv32
  {
    if n == 0 then 0x1_0000 else if n == 1 then 0x2_0000 else if n == 2 then 0x4_0000 else 0x8_0000
  }

  /** The three tables are the shifts the driver computes from the channel number. */
  lemma MasksAreShifts(n: Channel)
    ensures ClearShortMask(n) == (1 as bv32) << (n as bv32)
    ensures StopShortMask(n) == (1 as bv32) << ((8 + n) as bv32)
    ensures CompareIntMaskOf(n) == (1 as bv32) << ((16 + n) as bv32)
  {
  }

  /** The INTEN bits of all four COMPARE interrupts. */
  const CompareIntMask: bv32 := 0x000F_0000

  // ---------------------------------------------------------------------------
  // Task triggers, usable in every mode
  // ---------------------------------------------------------------------------

  function Start(h: Regs): (r: Regs)
    ensures r.running
    ensures r.(running := h.running, log := h.log) == h
    ensures r.log == h.log + [Trigger(TasksStart)]
  {
    h.(running := true, log := h.log + [Trigger(TasksStart)])
  }

  function Stop(h: Regs): (r: Regs)
    ensures !r.running
    ensures r.(running := h.running, log := h.log) == h
    ensures r.log == h.log + [Trigger(TasksStop)]
  {
    h.(running := false, log := h.log + [Trigger(TasksStop)])
  }

  function Shutdown(h: Regs): (r: Regs)
    ensures !r.running
    ensures r.(running := h.running, log := h.log) == h
    ensures r.log == h.log + [Trigger(TasksShutdown)]
  {
    h.(running := false, log := h.log + [Trigger(TasksShutdown)])
  }

  /** Resets the counter to 0; whether it runs is unchanged. */
  function Clear(h: Regs): (r: Regs)
    ensures r.counter == 0
    ensures r.(counter := h.counter, log := h.log) == h
    ensures r.log == h.log + [Trigger(TasksClear)]
  {
    h.(counter := 0, log := h.log + [Trigger(TasksClear)])
  }

  // ---------------------------------------------------------------------------
  // Task handles for the interconnect: the register each one names
  // ---------------------------------------------------------------------------

  /** Triggering a task register from outside the driver, as the interconnect does. */
  function Fire(h: Regs, task: TaskReg): Regs
  {
    var log := h.log + [Trigger(task)];
    match task
    case TasksStart => h.(running := true, log := log)
    case TasksStop => h.(running := false, log := log)
    case TasksShutdown => h.(running := false, log := log)
    case TasksClear => h.(counter := 0, log := log)
    case TasksCount => h.(counter := h.counter + 1, log := log)
    case TasksCapture(n) => h.(cc := h.cc[n := h.counter], log := log)
  }

  function TaskStart(t: Timer): (task: TaskReg)
    ensures forall h :: Fire(h, task) == Start(h)
  {
    TasksStart
  }

  function TaskStop(t: Timer): (task: TaskReg)
    ensures forall h :: Fire(h, task) == Stop(h)
  {
    TasksStop
  }

  function TaskClear(t: Timer): (task: TaskReg)
    ensures forall h :: Fire(h, task) == Clear(h)
  {
    TasksClear
  }

  function TaskShutdown(t: Timer): (task: TaskReg)
    ensures forall h :: Fire(h, task) == Shutdown(h)
  {
    TasksShutdown
  }

  /** The COUNT task exists only on a counter. */
  function TaskCount(t: Timer): (task: TaskReg)
    requires t.mode == CounterType
    ensures forall h :: Fire(h, task).counter == h.counter + 1
  {
    TasksCount
  }

  // ---------------------------------------------------------------------------
  // CC channel handles
  // ---------------------------------------------------------------------------

  /** `Timer::cc`: the handle of channel `n`, or a panic when there is no such channel. */
  function CcOf(t: Timer, n: nat): (r: Checked<Cc>)
    ensures r.Returned? <==> n < 4
    ensures r.Returned? ==> r.value.n == n
  {
    if n >= 4 then Panicked else Returned(Cc(n))
  }

  function Read(h: Regs, c: Cc): bv32
  {
    h.cc[c.n]
  }

  /** Stores `v` in the channel's CC register; the other three keep their values. */
  function Write(h: Regs, c: Cc, v: bv32): (r: Regs)
    ensures Read(r, c) == v
    ensures forall j: Channel :: j != c.n ==> r.cc[j] == h.cc[j]
    ensures r.(cc := h.cc, log := h.log) == h
    ensures r.log == h.log + [WriteCc(c.n, v)]
  {
    h.(cc := h.cc[c.n := v], log := h.log + [WriteCc(c.n, v)])
  }

  /** Triggers CAPTURE[n] and reads back the counter value it stored. */
  function Capture(h: Regs, c: Cc): (res: (Regs, bv32))
    ensures res.1 == h.counter
    ensures Read(res.0, c) == h.counter
    ensures forall j: Channel :: j != c.n ==> res.0.cc[j] == h.cc[j]
    ensures res.0.(cc := h.cc, log := h.log) == h
    ensures res.0.log == h.log + [Trigger(TasksCapture(c.n))]
  {
    var r := h.(cc := h.cc[c.n := h.counter], log := h.log + [Trigger(TasksCapture(c.n))]);
    (r, Read(r, c))
  }

  /** Disables the COMPARE[n] -> CLEAR shortcut by read-modify-write of SHORTS. */
  function UnshortCompareClear(h: Regs, c: Cc): (r: Regs)
    ensures !IsSet(r.shorts, ClearShortMask(c.n))
    ensures AgreeOutside(r.shorts, h.shorts, ClearShortMask(c.n))
    ensures r.(shorts := h.shorts, log := h.log) == h
    ensures |r.log| == |h.log| + 1 && r.log[..|h.log|] == h.log
  {
    WriteShortsReg(h, ClearMask(h.shorts, ClearShortMask(c.n)))
  }

  /** Disables the COMPARE[n] -> STOP shortcut by read-modify-write of SHORTS. */
  function UnshortCompareStop(h: Regs, c: Cc): (r: Regs)
    ensures !IsSet(r.shorts, StopShortMask(c.n))
    ensures AgreeOutside(r.shorts, h.shorts, StopShortMask(c.n))
    ensures r.(shorts := h.shorts, log := h.log) == h
    ensures |r.log| == |h.log| + 1 && r.log[..|h.log|] == h.log
  {
    WriteShortsReg(h, ClearMask(h.shorts, StopShortMask(c.n)))
  }

  /** Disabling the COMPARE -> CLEAR shortcut twice leaves the registers as doing it once. */
  lemma UnshortCompareClearIdempotent(h: Regs, c: Cc)
    ensures var once := UnshortCompareClear(h, c);
      UnshortCompareClear(once, c).(log := once.log) == once
  {
    var once := UnshortCompareClear(h, c);
    var twice := UnshortCompareClear(once, c);
    AgreeEverywhere(twice.shorts, once.shorts, ClearShortMask(c.n));
  }

  /** Disabling the COMPARE -> STOP shortcut twice leaves the registers as doing it once. */
  lemma UnshortCompareStopIdempotent(h: Regs, c: Cc)
    ensures var once := UnshortCompareStop(h, c);
      UnshortCompareStop(once, c).(log := once.log) == once
  {
    var once := UnshortCompareStop(h, c);
    var twice := UnshortCompareStop(once, c);
    AgreeEverywhere(twice.shorts, once.shorts, StopShortMask(c.n));
  }

  /** A channel's two shortcut bits are different bits of SHORTS. */
  lemma ShortMasksDisjoint(n: Channel)
    ensures ClearShortMask(n) & StopShortMask(n) == 0
  {
  }

  /** Disabling a channel's COMPARE -> CLEAR shortcut keeps its COMPARE -> STOP shortcut as it was. */
  lemma UnshortClearKeepsStop(h: Regs, c: Cc)
    ensures IsSet(UnshortCompareClear(h, c).shorts, StopShortMask(c.n)) == IsSet(h.shorts, StopShortMask(c.n))
  {
    ShortMasksDisjoint(c.n);
    AgreeOutsideOn(UnshortCompareClear(h, c).shorts, h.shorts, ClearShortMask(c.n), StopShortMask(c.n));
  }

  /** Disabling a channel's COMPARE -> STOP shortcut keeps its COMPARE -> CLEAR shortcut as it was. */
  lemma UnshortStopKeepsClear(h: Regs, c: Cc)
    ensures IsSet(UnshortCompareStop(h, c).shorts, ClearShortMask(c.n)) == IsSet(h.shorts, ClearShortMask(c.n))
  {
    ShortMasksDisjoint(c.n);
    AgreeOutsideOn(UnshortCompareStop(h, c).shorts, h.shorts, StopShortMask(c.n), ClearShortMask(c.n));
  }

  /**
    `Drop for Cc` as the code writes it: INTENCLR is read, bit 16+n is OR'd
    in and the word is written back. Since INTENCLR reads back the enabled
    interrupts, the written word names every enabled interrupt, and all of
    them are disabled.
   */
  function DropAsWritten(h: Regs, c: Cc): (r: Regs)
    ensures |r.log| == |h.log| + 1 && r.log[..|h.log|] == h.log
    ensures r.log[|h.log|].WriteIntenclr?
    ensures IsSet(r.log[|h.log|].mask, CompareIntMaskOf(c.n))
    ensures AgreeOutside(r.log[|h.log|].mask, h.inten, CompareIntMaskOf(c.n))
    ensures r.inten == 0
    ensures r.(inten := h.inten, log := h.log) == h
  {
    WriteIntenclrReg(h, SetMask(h.inten, CompareIntMaskOf(c.n)))
  }

  /**
    `Drop for Cc` as intended: disables the channel's own COMPARE interrupt
    and no other. The rest of the model uses this definition.
   */
  function Drop(h: Regs, c: Cc): (r: Regs)
    ensures !IsSet(r.inten, CompareIntMaskOf(c.n))
    ensures AgreeOutside(r.inten, h.inten, CompareIntMaskOf(c.n))
    ensures r.(inten := h.inten, log := h.log) == h
    ensures r.log == h.log + [WriteIntenclr(CompareIntMaskOf(c.n))]
  {
    WriteIntenclrReg(h, CompareIntMaskOf(c.n))
  }

  /**
    The discrepancy in one input: with channel 1's COMPARE interrupt enabled,
    dropping the handle of channel 0 as written disables channel 1's
    interrupt as well, while the intended drop leaves it enabled.
   */
  lemma DropAsWrittenDisablesOtherChannel(h: Regs)
    requires IsSet(h.inten, CompareIntMaskOf(1))
    ensures !IsSet(DropAsWritten(h, Cc(0)).inten, CompareIntMaskOf(1))
    ensures IsSet(Drop(h, Cc(0)).inten, CompareIntMaskOf(1))
  {
    AgreeOutsideOn(Drop(h, Cc(0)).inten, h.inten, CompareIntMaskOf(0), CompareIntMaskOf(1));
  }

  /** Dropping the handles of channels 0 and 1 disables interrupts 16 and 17 and touches no other bit. */
  lemma DropTwoChannels(h: Regs)
    ensures var r := Drop(Drop(h, Cc(0)), Cc(1));
      && !IsSet(r.inten, CompareIntMaskOf(0))
      && !IsSet(r.inten, CompareIntMaskOf(1))
      && AgreeOutside(r.inten, h.inten, CompareIntMaskOf(0) | CompareIntMaskOf(1))
  {
    var r0 := Drop(h, Cc(0));
    var r := Drop(r0, Cc(1));
    AgreeOutsideOn(r.inten, r0.inten, CompareIntMaskOf(1), CompareIntMaskOf(0));
  }

  // ---------------------------------------------------------------------------
  // Construction and configuration
  // ---------------------------------------------------------------------------

  /**
    One pass of the loop in `Timer::new`: take the handle of channel `n`,
    write 0 to its CC register, and drop the handle at the end of the pass.
   */
  function ZeroChannel(h: Regs, n: Channel): (r: Regs)
    ensures r.cc[n] == 0
    ensures forall j: Channel :: j != n ==> r.cc[j] == h.cc[j]
    ensures !IsSet(r.inten, CompareIntMaskOf(n))
    ensures AgreeOutside(r.inten, h.inten, CompareIntMaskOf(n))
    ensures r.(cc := h.cc, inten := h.inten, log := h.log) == h
    ensures ExtendsWithChannelWrites(h.log, r.log, 2)
  {
    var c := Cc(n);
    Drop(Write(h, c, 0), c)
  }

  /** `after` is `before` followed by `count` CC and INTENCLR writes. */
  predicate ExtendsWithChannelWrites(before: seq<Access>, after: seq<Access>, count: nat)
  {
    && |after| == |before| + count && after[..|before|] == before
    && forall i :: |before| <= i < |after| ==> after[i].WriteCc? || after[i].WriteIntenclr?
  }

  lemma ExtendsTrans(a: seq<Access>, b: seq<Access>, c: seq<Access>, m: nat, n: nat)
    requires ExtendsWithChannelWrites(a, b, m) && ExtendsWithChannelWrites(b, c, n)
    ensures ExtendsWithChannelWrites(a, c, m + n)
  {
    assert c[..|a|] == c[..|b|][..|a|];
    forall i | |a| <= i < |c|
      ensures c[i].WriteCc? || c[i].WriteIntenclr?
    {
      if i < |b| {
        assert c[i] == c[..|b|][i];
      }
    }
  }

  /** The interrupt-enable bookkeeping of the four passes, each of which clears its own bit. */
  lemma FourPassesClearCompareInts(a0: bv32, a1: bv32, a2: bv32, a3: bv32, a4: bv32)
    requires AgreeOutside(a1, a0, 0x1_0000) && a1 & 0x1_0000 == 0
    requires AgreeOutside(a2, a1, 0x2_0000) && a2 & 0x2_0000 == 0
    requires AgreeOutside(a3, a2, 0x4_0000) && a3 & 0x4_0000 == 0
    requires AgreeOutside(a4, a3, 0x8_0000) && a4 & 0x8_0000 == 0
    ensures a4 & CompareIntMask == 0
    ensures AgreeOutside(a4, a0, CompareIntMask)
  {
  }

  /** The loop `for n in 0..4` of `Timer::new`. */
  function ZeroChannels(h: Regs): (r: Regs)
    ensures forall n: Channel :: r.cc[n] == 0
    ensures r.inten & CompareIntMask == 0
    ensures AgreeOutside(r.inten, h.inten, CompareIntMask)
    ensures r.(cc := h.cc, inten := h.inten, log := h.log) == h
    ensures ExtendsWithChannelWrites(h.log, r.log, 8)
  {
    var h1 := ZeroChannel(h, 0);
    var h2 := ZeroChannel(h1, 1);
    var h3 := ZeroChannel(h2, 2);
    var h4 := ZeroChannel(h3, 3);
    FourPassesClearCompareInts(h.inten, h1.inten, h2.inten, h3.inten, h4.inten);
    ExtendsTrans(h.log, h1.log, h2.log, 2, 2);
    ExtendsTrans(h.log, h2.log, h3.log, 4, 2);
    ExtendsTrans(h.log, h3.log, h4.log, 6, 2);
    h4
  }

  /** A word with every COMPARE interrupt bit clear has each channel's bit clear. */
  lemma NoCompareInts(w: bv32)
    requires w & CompareIntMask == 0
    ensures forall n: Channel :: !IsSet(w, CompareIntMaskOf(n))
  {
  }

  /**
    The accesses `Timer::new` appends: STOP, CLEAR, then the CC and INTENCLR
    writes of its channel loop, two per channel.
   */
  predicate NewLogShape(before: seq<Access>, after: seq<Access>)
  {
    && |after| == |before| + 10 && after[..|before|] == before
    && after[|before|] == Trigger(TasksStop)
    && after[|before| + 1] == Trigger(TasksClear)
    && forall i :: |before| + 2 <= i < |after| ==> after[i].WriteCc? || after[i].WriteIntenclr?
  }

  lemma StopClearThenChannelWrites(before: seq<Access>, mid: seq<Access>, after: seq<Access>)
    requires mid == before + [Trigger(TasksStop), Trigger(TasksClear)]
    requires ExtendsWithChannelWrites(mid, after, 8)
    ensures NewLogShape(before, after)
  {
    assert after[|before|] == mid[|before|];
    assert after[|before| + 1] == mid[|before| + 1];
    assert after[..|before|] == mid[..|before|];
  }

  /**
    `Timer::new`: stops the timer, clears the counter and zeroes the four CC
    registers. The handle remembers `B24`, but BITMODE, PRESCALER, MODE and
    SHORTS are not written (the shortcut resets in the loop are commented out).
    `mode` is the type parameter the caller instantiates `Timer<MODE>` with.
   */
  function New(instance: Instance, mode: Mode, h: Regs): (res: (Timer, Regs))
    ensures res.0 == Timer(instance, mode, B24)
    ensures !res.1.running && res.1.counter == 0
    ensures forall n: Channel :: res.1.cc[n] == 0
    ensures forall n: Channel :: !IsSet(res.1.inten, CompareIntMaskOf(n))
    ensures AgreeOutside(res.1.inten, h.inten, CompareIntMask)
    ensures res.1.shorts == h.shorts && res.1.bitmode == h.bitmode
    ensures res.1.prescaler == h.prescaler && res.1.mode == h.mode
    ensures res.1.unpredictable == h.unpredictable
    ensures NewLogShape(h.log, res.1.log)
  {
    var h1 := Clear(Stop(h));
    var r := ZeroChannels(h1);
    NoCompareInts(r.inten);
    StopClearThenChannelWrites(h.log, h1.log, r.log);
    (Timer(instance, mode, B24), r)
  }

  /** `set_bitmode`: stop the timer, then write BITMODE. */
  function SetBitmode(h: Regs, b: Bitmode): (r: Regs)
    ensures !r.running
    ensures r.bitmode == BitmodeValue(b) && BitmodeOf(r.bitmode) == Some(b)
    ensures r.unpredictable == h.unpredictable
    ensures r.(running := h.running, bitmode := h.bitmode, log := h.log) == h
    ensures r.log == h.log + [Trigger(TasksStop), WriteBitmode(BitmodeValue(b))]
  {
    WriteBitmodeReg(Stop(h), BitmodeValue(b))
  }

  /** `with_bitmode`: any mode; the handle keeps its mode and instance. */
  function WithBitmode(t: Timer, h: Regs, b: Bitmode): (res: (Timer, Regs))
    ensures res.0.mode == t.mode && res.0.instance == t.instance
    ensures res.0.bitmode == b
    ensures BitmodeOf(res.1.bitmode) == Some(res.0.bitmode)
    ensures !res.1.running && res.1.unpredictable == h.unpredictable
  {
    (t.(bitmode := b), SetBitmode(h, b))
  }

  /** Setting the same width twice gives the same handle and the same registers as setting it once. */
  lemma WithBitmodeIdempotent(t: Timer, h: Regs, b: Bitmode)
    ensures var once := WithBitmode(t, h, b);
      var twice := WithBitmode(once.0, once.1, b);
      twice.0 == once.0 && twice.1.(log := once.1.log) == once.1
  {
  }

  /** `with_frequency`: only on a timer; stop, then write PRESCALER. */
  function WithFrequency(t: Timer, h: Regs, f: Frequency): (res: (Timer, Regs))
    requires t.mode == TimerType
    ensures res.0 == t
    ensures res.1.prescaler == PrescalerValue(f) && res.1.prescaler <= 9
    ensures FrequencyOf(res.1.prescaler) == Some(f)
    ensures !res.1.running
    ensures res.1.unpredictable == h.unpredictable
    ensures res.1.(running := h.running, prescaler := h.prescaler, log := h.log) == h
    ensures res.1.log == h.log + [Trigger(TasksStop), WritePrescaler(PrescalerValue(f))]
  {
    (t, WritePrescalerReg(Stop(h), PrescalerValue(f)))
  }

  /** `into_counter`: only from `NotConfigured`; writes MODE = low-power counter. */
  function IntoCounter(t: Timer, h: Regs): (res: (Timer, Regs))
    requires t.mode == NotConfigured
    ensures res.0 == Timer(t.instance, CounterType, t.bitmode)
    ensures res.1.mode == ModeLowPowerCounter
    ensures res.1.(mode := h.mode, log := h.log) == h
    ensures res.1.log == h.log + [WriteMode(ModeLowPowerCounter)]
  {
    (Timer(t.instance, CounterType, t.bitmode), WriteModeReg(h, ModeLowPowerCounter))
  }

  /** `into_timer`: only from `NotConfigured`; writes MODE = timer. */
  function IntoTimer(t: Timer, h: Regs): (res: (Timer, Regs))
    requires t.mode == NotConfigured
    ensures res.0 == Timer(t.instance, TimerType, t.bitmode)
    ensures res.1.mode == ModeTimer
    ensures res.1.(mode := h.mode, log := h.log) == h
    ensures res.1.log == h.log + [WriteMode(ModeTimer)]
  {
    (Timer(t.instance, TimerType, t.bitmode), WriteModeReg(h, ModeTimer))
  }
}
