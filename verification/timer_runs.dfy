/**
  Programs that drive one timer.

  A program is a list of driver calls on one handle. A call the Rust compiler
  would reject for the handle's current mode ends the run as `IllTyped`;
  asking for a channel that does not exist ends it as `Aborted` (the panic in
  `Timer::cc`). A channel call takes the handle, makes the call and drops the
  handle again, as `timer.cc(n).write(v);` does.

  Over all such programs this module proves the two rules the driver exists to
  keep: the typestate only ever leaves `NotConfigured`, and BITMODE and
  PRESCALER are only ever written right after a STOP, so never while the
  timer runs.
 */
module NrfTimerRuns {
  import opened Bits
  import opened NrfTimer

  datatype ChannelCall = CcRead | CcWrite(value: bv32) | CcCapture | CcUnshortClear | CcUnshortStop

  datatype Call =
    | CallStart | CallStop | CallShutdown | CallClear
    | CallWithBitmode(bitmode: Bitmode)
    | CallWithFrequency(frequency: Frequency)
    | CallTaskCount
    | CallIntoCounter | CallIntoTimer
    | CallChannel(n: nat, call: ChannelCall)

  datatype Outcome = Continue(t: Timer, h: Regs) | IllTyped | Aborted

  /** Whether an access configures the counter (the registers the hardware note is about). */
  predicate IsConfigWrite(a: Access)
  {
    a.WriteBitmode? || a.WritePrescaler?
  }

  /** Every BITMODE or PRESCALER write in the log comes right after a STOP trigger. */
  predicate StopBeforeConfig(log: seq<Access>)
  {
    forall i :: 0 <= i < |log| && IsConfigWrite(log[i]) ==> 0 < i && log[i - 1] == Trigger(TasksStop)
  }

  /** Whether a call is legal in a mode, as the Rust `impl` blocks decide it. */
  predicate WellTyped(mode: Mode, call: Call)
  {
    match call
    case CallWithFrequency(_) => mode == TimerType
    case CallTaskCount => mode == CounterType
    case CallIntoCounter => mode == NotConfigured
    case CallIntoTimer => mode == NotConfigured
    case _ => true
  }

  function ChannelStep(h: Regs, c: Cc, call: ChannelCall): (r: Regs)
    ensures r.unpredictable == h.unpredictable
    ensures |h.log| <= |r.log| <= |h.log| + 1 && r.log[..|h.log|] == h.log
    ensures forall i :: |h.log| <= i < |r.log| ==> !IsConfigWrite(r.log[i])
  {
    match call
    case CcRead => h
    case CcWrite(v) => Write(h, c, v)
    case CcCapture => Capture(h, c).0
    case CcUnshortClear => UnshortCompareClear(h, c)
    case CcUnshortStop => UnshortCompareStop(h, c)
  }

  /** One call of a program. */
  function Step(t: Timer, h: Regs, call: Call): (o: Outcome)
    ensures o.IllTyped? <==> !WellTyped(t.mode, call)
    ensures o.Aborted? <==> call.CallChannel? && call.n >= 4
    ensures o.Continue? ==> o.t.instance == t.instance
    ensures o.Continue? && t.mode != NotConfigured ==> o.t.mode == t.mode
    ensures o.Continue? && o.t.mode != t.mode ==> call.CallIntoCounter? || call.CallIntoTimer?
    ensures o.Continue? ==> o.h.unpredictable == h.unpredictable
  {
    match call
    case CallStart => Continue(t, Start(h))
    case CallStop => Continue(t, Stop(h))
    case CallShutdown => Continue(t, Shutdown(h))
    case CallClear => Continue(t, Clear(h))
    case CallWithBitmode(b) =>
      var r := WithBitmode(t, h, b);
      Continue(r.0, r.1)
    case CallWithFrequency(f) =>
      if t.mode == TimerType then
        var r := WithFrequency(t, h, f);
        Continue(r.0, r.1)
      else IllTyped
    case CallTaskCount =>
      if t.mode == CounterType then Continue(t, h) else IllTyped
    case CallIntoCounter =>
      if t.mode == NotConfigured then
        var r := IntoCounter(t, h);
        Continue(r.0, r.1)
      else IllTyped
    case CallIntoTimer =>
      if t.mode == NotConfigured then
        var r := IntoTimer(t, h);
        Continue(r.0, r.1)
      else IllTyped
    case CallChannel(n, cc) =>
      match CcOf(t, n)
      case Panicked => Aborted
      case Returned(c) => Continue(t, Drop(ChannelStep(h, c, cc), c))
  }

  /** A whole program: calls run in order until one is ill-typed or panics. */
  function Run(t: Timer, h: Regs, calls: seq<Call>): Outcome
    decreases |calls|
  {
    if |calls| == 0 then Continue(t, h)
    else
      match Step(t, h, calls[0])
      case Continue(t', h') => Run(t', h', calls[1..])
      case IllTyped => IllTyped
      case Aborted => Aborted
  }

  /** Appending accesses that configure nothing keeps the stop-before-configure rule. */
  lemma AppendPlain(log: seq<Access>, r: seq<Access>)
    requires StopBeforeConfig(log)
    requires |log| <= |r| && r[..|log|] == log
    requires forall i :: |log| <= i < |r| ==> !IsConfigWrite(r[i])
    ensures StopBeforeConfig(r)
  {
    forall i | 0 <= i < |r| && IsConfigWrite(r[i])
      ensures 0 < i && r[i - 1] == Trigger(TasksStop)
    {
      assert r[i] == r[..|log|][i];
    }
  }

  /** Appending a STOP followed by a configuration write keeps the rule. */
  lemma AppendStopThenConfig(log: seq<Access>, w: Access)
    requires StopBeforeConfig(log)
    ensures StopBeforeConfig(log + [Trigger(TasksStop), w])
  {
    var r := log + [Trigger(TasksStop), w];
    forall i | 0 <= i < |r| && IsConfigWrite(r[i])
      ensures 0 < i && r[i - 1] == Trigger(TasksStop)
    {
      if i < |log| {
        assert r[i] == log[i] && r[i - 1] == log[i - 1];
      }
    }
  }

  /** Every call keeps the rule that configuration writes come right after a STOP. */
  lemma {:induction false} StepKeepsStopBeforeConfig(t: Timer, h: Regs, call: Call)
    requires StopBeforeConfig(h.log)
    ensures Step(t, h, call).Continue? ==> StopBeforeConfig(Step(t, h, call).h.log)
  {
    match call
    case CallWithBitmode(b) =>
      AppendStopThenConfig(h.log, WriteBitmode(BitmodeValue(b)));
    case CallWithFrequency(f) =>
      AppendStopThenConfig(h.log, WritePrescaler(PrescalerValue(f)));
    case CallChannel(n, cc) =>
      if n < 4 {
        var c := Cc(n);
        var h1 := ChannelStep(h, c, cc);
        AppendPlain(h.log, h1.log);
        AppendPlain(h1.log, Drop(h1, c).log);
      }
    case CallStart =>
      AppendPlain(h.log, Start(h).log);
    case CallStop =>
      AppendPlain(h.log, Stop(h).log);
    case CallShutdown =>
      AppendPlain(h.log, Shutdown(h).log);
    case CallClear =>
      AppendPlain(h.log, Clear(h).log);
    case CallTaskCount =>
    case CallIntoCounter =>
      if t.mode == NotConfigured {
        AppendPlain(h.log, IntoCounter(t, h).1.log);
      }
    case CallIntoTimer =>
      if t.mode == NotConfigured {
        AppendPlain(h.log, IntoTimer(t, h).1.log);
      }
  }

  /** No program ever writes BITMODE or PRESCALER other than right after a STOP. */
  lemma {:induction false} RunKeepsStopBeforeConfig(t: Timer, h: Regs, calls: seq<Call>)
    requires StopBeforeConfig(h.log)
    ensures Run(t, h, calls).Continue? ==> StopBeforeConfig(Run(t, h, calls).h.log)
    decreases |calls|
  {
    if |calls| > 0 {
      StepKeepsStopBeforeConfig(t, h, calls[0]);
      var o := Step(t, h, calls[0]);
      if o.Continue? {
        RunKeepsStopBeforeConfig(o.t, o.h, calls[1..]);
      }
    }
  }

  /** No program makes the timer's behaviour unpredictable: configuration is never written while running. */
  lemma {:induction false} RunKeepsPredictable(t: Timer, h: Regs, calls: seq<Call>)
    requires !h.unpredictable
    ensures Run(t, h, calls).Continue? ==> !Run(t, h, calls).h.unpredictable
    decreases |calls|
  {
    if |calls| > 0 {
      var o := Step(t, h, calls[0]);
      if o.Continue? {
        RunKeepsPredictable(o.t, o.h, calls[1..]);
      }
    }
  }

  /**
    The mode transition is one-way: a configured handle keeps its mode for
    the rest of any program, every handle keeps its instance, and a mode
    change needs an `into_counter` or `into_timer` call in the program.
   */
  lemma {:induction false} RunModeOneWay(t: Timer, h: Regs, calls: seq<Call>)
    ensures var o := Run(t, h, calls);
      o.Continue? ==>
        && o.t.instance == t.instance
        && (t.mode != NotConfigured ==> o.t.mode == t.mode)
        && (o.t.mode != t.mode ==> exists i :: 0 <= i < |calls| && (calls[i].CallIntoCounter? || calls[i].CallIntoTimer?))
    decreases |calls|
  {
    if |calls| > 0 {
      var o := Step(t, h, calls[0]);
      if o.Continue? {
        RunModeOneWay(o.t, o.h, calls[1..]);
        var r := Run(o.t, o.h, calls[1..]);
        if r.Continue? && r.t.mode != t.mode && r.t.mode != o.t.mode {
          var i :| 0 <= i < |calls[1..]| && (calls[1..][i].CallIntoCounter? || calls[1..][i].CallIntoTimer?);
          assert calls[i + 1] == calls[1..][i];
        }
      }
    }
  }

  /**
    A timer bound with `new` and then driven by any program never has its
    configuration written while running, and its log keeps the
    stop-before-configure rule, provided the hardware was in such a state.
   */
  lemma NewThenRun(instance: Instance, h: Regs, calls: seq<Call>)
    requires !h.unpredictable && StopBeforeConfig(h.log)
    ensures var b := New(instance, NotConfigured, h);
      var o := Run(b.0, b.1, calls);
      o.Continue? ==> !o.h.unpredictable && StopBeforeConfig(o.h.log)
  {
    var b := New(instance, NotConfigured, h);
    AppendPlain(h.log, b.1.log);
    RunKeepsPredictable(b.0, b.1, calls);
    RunKeepsStopBeforeConfig(b.0, b.1, calls);
  }
}
