# Embassy timer and flash drivers in Dafny

This project models two small hardware drivers from the Embassy embedded
framework, with their memory-mapped registers replaced by an immutable
register record:

- the nRF52 TIMER/COUNTER driver (`embassy-nrf/src/timerv2.rs`): the
  typestate `NotConfigured` -> `CounterType` / `TimerType`, the register
  encodings of `Frequency` and `Bitmode`, the start/stop/shutdown/clear tasks,
  bounds-checked capture/compare (CC) channel handles, the per-channel bit
  surgery on SHORTS and INTENCLR, and the rule that BITMODE and PRESCALER are
  written only after a STOP;
- the STM32F0 flash sequencer (`embassy-stm32/src/flash/f0.rs`): the two-key
  unlock, lock, program enable, the split of a buffer into little-endian
  half-word stores, status classification after the busy-wait, and the erase
  sequence with its result override and cleanup.

Files:

- `bits.dfy` (`Bits`): single-bit and mask surgery on `bv32` register words,
  with "agrees outside a mask" as the frame predicate.
- `timer.dfy` (`NrfTimer`): the timer handle `Timer`, the register record
  `Regs` with an ordered access log, and one function per driver operation.
- `timer_runs.dfy` (`NrfTimerRuns`): programs (sequences of driver calls) on
  one handle, and the invariants every program keeps.
- `flash.dfy` (`StmFlash`): the flash controller record `Flash` (CR, SR, AR
  and the ordered bus-write log) and the sequencer operations.

Register behaviour is taken from the vendors' reference manuals:

- nRF52832 TIMER: INTENCLR reads back the enabled interrupts, and writing 1
  to one of its bits disables that interrupt. MODE is 0 for timer and 2 for
  low-power counter.
- STM32F0 flash (RM0091, section 3.5): PGERR (bit 2), WRPRT (bit 4) and EOP
  (bit 5) in FLASH_SR are cleared by writing 1, and BSY (bit 0) is read-only.
  In FLASH_CR, PG is bit 0, PER bit 1, STRT bit 6 and LOCK bit 7. LOCK can
  only be set by software; writing KEY1 (0x4567_0123) and then KEY2
  (0xCDEF_89AB) to FLASH_KEYR clears it. STRT is reset by the hardware when
  BSY is reset.

Points where the timer code is easy to misread:

- `Timer::new` is generic in `MODE`: it does not force `NotConfigured`.
- `new` does not write MODE or BITMODE. The handle says `B24`, but the
  register keeps whatever it held.
- `new` does not reset the shortcuts, because those calls are commented out.
- `new` does drop each temporary `Cc` handle in its loop, so it writes
  INTENCLR four times.

Dropping a `Cc` handle as written disables every enabled interrupt of the
timer (see "## Findings"). `NrfTimer.DropAsWritten` models that code. The
rest of the model uses the corrected `NrfTimer.Drop`: the loop in `new`
and each channel call in `NrfTimerRuns` drop their handle with it.

The busy-wait is a scan over a caller-supplied sequence of status-register
values (`trace`), which must contain one with BSY clear. The
interconnect `Task` handles are modelled as the task register they name.

## Model

| member | source | states |
|---|---|---|
| NrfTimer.PrescalerValue | embassy-nrf/src/timerv2.rs:12-25 | The PRESCALER value of a frequency is in [0, 9], and 16 MHz / 2^value is exactly the frequency the variant is named after |
| NrfTimer.FrequencyOf | embassy-nrf/src/timerv2.rs:12-25 | A PRESCALER value names a frequency exactly when it is at most 9, and it names the one variant whose discriminant it is, so the ten discriminants are distinct |
| NrfTimer.BitmodeValue | embassy-nrf/src/timerv2.rs:27-32 | The BITMODE field value of each width fits the 2-bit field |
| NrfTimer.BitmodeOf | embassy-nrf/src/timerv2.rs:27-32 | A BITMODE value names a width exactly when it is at most 3, it names the one width whose discriminant it is, and the width is 16 bits for 0, 8 for 1, 24 for 2 and 32 for 3 |
| NrfTimer.Start | embassy-nrf/src/timerv2.rs:107-110 | Triggering START leaves the timer running and changes no other register |
| NrfTimer.Stop | embassy-nrf/src/timerv2.rs:112-115 | Triggering STOP leaves the timer stopped and changes no other register |
| NrfTimer.Shutdown | embassy-nrf/src/timerv2.rs:117-120 | Triggering SHUTDOWN leaves the timer stopped and changes no other register |
| NrfTimer.Clear | embassy-nrf/src/timerv2.rs:122-125 | Triggering CLEAR sets the counter to 0, keeps the running state and changes no other register |
| NrfTimer.TaskStart | embassy-nrf/src/timerv2.rs:127-132 | The START task handle, when fired from the interconnect (`Fire`), has exactly the effect of `start` |
| NrfTimer.TaskShutdown | embassy-nrf/src/timerv2.rs:134-136 | The SHUTDOWN task handle has exactly the effect of `shutdown` |
| NrfTimer.TaskStop | embassy-nrf/src/timerv2.rs:138-143 | The STOP task handle has exactly the effect of `stop` |
| NrfTimer.TaskClear | embassy-nrf/src/timerv2.rs:145-150 | The CLEAR task handle has exactly the effect of `clear` |
| NrfTimer.TaskCount | embassy-nrf/src/timerv2.rs:189-197 | The COUNT task exists only on a counter, and firing it increments the counter |
| NrfTimer.CcOf | embassy-nrf/src/timerv2.rs:152-161 | `cc(n)` returns a handle exactly when n < 4, and that handle carries index n; otherwise it panics |
| NrfTimer.Write | embassy-nrf/src/timerv2.rs:237-249 | After `write(v)`, `read()` on the same channel returns v, the other three CC registers keep their values, and nothing else changes |
| NrfTimer.Capture | embassy-nrf/src/timerv2.rs:251-255 | `capture` returns the counter value and stores it in the channel's CC register; the other channels and every other register are unchanged |
| NrfTimer.UnshortCompareClear | embassy-nrf/src/timerv2.rs:257-262 | SHORTS bit n (COMPARE[n] -> CLEAR) is clear afterwards and every other SHORTS bit is as before |
| NrfTimer.UnshortCompareStop | embassy-nrf/src/timerv2.rs:263-268 | SHORTS bit 8+n (COMPARE[n] -> STOP) is clear afterwards and every other SHORTS bit is as before |
| NrfTimer.UnshortCompareClearIdempotent | embassy-nrf/src/timerv2.rs:257-262 | Disabling the COMPARE -> CLEAR shortcut a second time changes no register |
| NrfTimer.UnshortCompareStopIdempotent | embassy-nrf/src/timerv2.rs:263-268 | Disabling the COMPARE -> STOP shortcut a second time changes no register |
| NrfTimer.UnshortClearKeepsStop | embassy-nrf/src/timerv2.rs:257-268 | Disabling a channel's COMPARE -> CLEAR shortcut leaves its COMPARE -> STOP shortcut as it was |
| NrfTimer.UnshortStopKeepsClear | embassy-nrf/src/timerv2.rs:257-268 | Disabling a channel's COMPARE -> STOP shortcut leaves its COMPARE -> CLEAR shortcut as it was |
| NrfTimer.MasksAreShifts | embassy-nrf/src/timerv2.rs:261-275 | The bit tables used for channel n are the driver's shifts: `1 << n`, `1 << (8 + n)` and `1 << (16 + n)` |
| NrfTimer.DropAsWritten | embassy-nrf/src/timerv2.rs:271-276 | The code as written: the INTENCLR word written has bit 16+n set and agrees with the value read on every other bit, and so every enabled interrupt ends up disabled |
| NrfTimer.Drop | embassy-nrf/src/timerv2.rs:271-276 | The intended drop: the channel's COMPARE interrupt is disabled, and every other interrupt and register is unchanged |
| NrfTimer.DropAsWrittenDisablesOtherChannel | embassy-nrf/src/timerv2.rs:271-276 | With channel 1's interrupt enabled, dropping channel 0's handle as written disables it, and the intended drop does not |
| NrfTimer.DropTwoChannels | embassy-nrf/src/timerv2.rs:271-276 | Dropping the handles of channels 0 and 1 disables exactly interrupts 16 and 17 |
| NrfTimer.ZeroChannel | embassy-nrf/src/timerv2.rs:79-85 | One pass of the loop in `new` zeroes channel n's CC register and no other. The temporary handle's corrected drop disables that channel's COMPARE interrupt and no other |
| NrfTimer.ZeroChannels | embassy-nrf/src/timerv2.rs:78-85 | The loop of `new` zeroes all four CC registers. With the corrected drop it disables the four COMPARE interrupts and no other interrupt, and it appends eight CC and INTENCLR writes |
| NrfTimer.New | embassy-nrf/src/timerv2.rs:59-87 | `new` returns a B24 handle in the requested mode. The timer is left stopped, the counter 0 and all four CC registers 0. SHORTS, BITMODE, PRESCALER and MODE are untouched. The log is STOP, CLEAR, then the loop's writes. With the corrected drop, interrupts other than COMPARE[0..3] keep their state |
| NrfTimer.SetBitmode | embassy-nrf/src/timerv2.rs:95-105 | `set_bitmode` triggers STOP and then writes the width's encoding to BITMODE. Read back, the register names that width. The timer is stopped, and the configuration is never written while it runs |
| NrfTimer.WithBitmode | embassy-nrf/src/timerv2.rs:89-93 | `with_bitmode` keeps the handle's mode and instance, records the new width, and leaves the BITMODE register naming it |
| NrfTimer.WithBitmodeIdempotent | embassy-nrf/src/timerv2.rs:89-105 | Applying the same width twice gives the same handle and registers as applying it once |
| NrfTimer.WithFrequency | embassy-nrf/src/timerv2.rs:171-187 | Only on a timer: STOP, then PRESCALER := the frequency's value in [0, 9]. Read back, the register names that frequency. The handle is unchanged |
| NrfTimer.IntoCounter | embassy-nrf/src/timerv2.rs:199-210 | Only from `NotConfigured`: MODE := low-power counter, and the handle becomes a counter with the same instance and width |
| NrfTimer.IntoTimer | embassy-nrf/src/timerv2.rs:212-221 | Only from `NotConfigured`: MODE := timer, and the handle becomes a timer with the same instance and width |
| NrfTimerRuns.Step | embassy-nrf/src/timerv2.rs:56-222 | A call is rejected exactly when its `impl` block does not cover the handle's mode, and it panics exactly for a channel index of 4 or more. Otherwise the instance is kept, a configured mode is kept, and the mode changes only through `into_counter` / `into_timer` |
| NrfTimerRuns.StepKeepsStopBeforeConfig | embassy-nrf/src/timerv2.rs:7-10 | Every driver call keeps the rule that each BITMODE or PRESCALER write directly follows a STOP trigger |
| NrfTimerRuns.RunKeepsStopBeforeConfig | embassy-nrf/src/timerv2.rs:7-10 | No program of driver calls ever writes BITMODE or PRESCALER other than directly after a STOP trigger |
| NrfTimerRuns.RunKeepsPredictable | embassy-nrf/src/timerv2.rs:7-10 | No program of driver calls writes BITMODE or PRESCALER while the timer runs |
| NrfTimerRuns.RunModeOneWay | embassy-nrf/src/timerv2.rs:199-222 | Over any program, a configured handle keeps its mode, every handle keeps its instance, and a mode change needs an `into_counter` or `into_timer` call |
| NrfTimerRuns.NewThenRun | embassy-nrf/src/timerv2.rs:59-87 | A timer from `new` followed by any program keeps the stop-before-configure rule and is never reconfigured while running |
| StmFlash.Lock | embassy-stm32/src/flash/f0.rs:14-16 | `lock` sets LOCK by a read-modify-write of CR and leaves the other CR bits, SR and AR unchanged |
| StmFlash.Unlock | embassy-stm32/src/flash/f0.rs:18-21 | `unlock` appends exactly the key writes 0x4567_0123 then 0xCDEF_89AB, after which the controller is unlocked and the other CR bits are unchanged |
| StmFlash.UnlockUndoesLock | embassy-stm32/src/flash/f0.rs:14-21 | Locking an unlocked controller and unlocking it again restores its control register |
| StmFlash.BeginWrite | embassy-stm32/src/flash/f0.rs:23-27 | `begin_write` needs an even write size, and leaves PG set with PER and STRT clear and the lock state unchanged |
| StmFlash.EndWrite | embassy-stm32/src/flash/f0.rs:29-31 | `end_write` leaves PG, PER and STRT clear and the lock state unchanged |
| StmFlash.WriteWindowCloses | embassy-stm32/src/flash/f0.rs:23-31 | `begin_write` followed by `end_write` leaves PG, PER and STRT clear, keeps the lock state, SR and AR, and adds exactly the two CR writes |
| StmFlash.HalfwordOf | embassy-stm32/src/flash/f0.rs:36 | `u16::from_le_bytes([lo, hi])` has low byte lo and high byte hi, so splitting it gives the two bytes back |
| StmFlash.HalfwordValue | embassy-stm32/src/flash/f0.rs:36 | As a number, `u16::from_le_bytes([lo, hi])` is lo + 256 * hi |
| StmFlash.Classify | embassy-stm32/src/flash/f0.rs:93-102 | A ready status gives Protected exactly when WRPRT is set. It gives Seq exactly when WRPRT is clear and PGERR is set, and Ok exactly when both are clear. It never gives Prog |
| StmFlash.FirstReady | embassy-stm32/src/flash/f0.rs:90-93 | The position of the first status value with BSY clear: every earlier value has BSY set |
| StmFlash.BlockingWaitReady | embassy-stm32/src/flash/f0.rs:89-105 | The wait classifies exactly the first status value with BSY clear, leaves SR showing it, and has STRT reset; the other CR bits, AR and the bus are untouched |
| StmFlash.BlockingWrite | embassy-stm32/src/flash/f0.rs:33-44 | Exactly len/2 half-word stores go out, store i being at start + 2i with value buf[2i] + 256 * buf[2i+1]. Decoding the stores gives back buf, the store addresses strictly increase, the result is the wait's verdict, and CR changes only by the hardware resetting STRT |
| StmFlash.StoresAtIncreasingAddresses | embassy-stm32/src/flash/f0.rs:34-41 | Stores at consecutive even offsets from the start address target strictly increasing addresses |
| StmFlash.ClearAllErrWord | embassy-stm32/src/flash/f0.rs:76-86 | The word `clear_all_err` writes back is the status value it read |
| StmFlash.ClearAllErr | embassy-stm32/src/flash/f0.rs:75-87 | After `clear_all_err`, PGERR, WRPRT and EOP are clear, and every other SR bit, CR and AR are unchanged. The one bus write is SR := the value read |
| StmFlash.StartErase | embassy-stm32/src/flash/f0.rs:47-55 | The bus gets exactly: CR with PER set, AR := sector start, then CR with PER and STRT set. The lock state is unchanged |
| StmFlash.FinishErase | embassy-stm32/src/flash/f0.rs:59-72 | Without EOP the result is Prog; with EOP it is the wait's verdict, and EOP is acknowledged first. Afterwards PER is clear and no other CR bit has changed, the sticky flags are clear, the other SR bits are unchanged and the lock state is kept |
| StmFlash.BlockingEraseSector | embassy-stm32/src/flash/f0.rs:46-73 | Erase sets PER, writes AR := sector start and sets STRT, in that order, then waits. A missing EOP turns the result into Prog. A present EOP is acknowledged and the wait's verdict is kept. On every path the controller ends idle (PER and STRT clear), the PER-clearing write carries that final CR value, the sticky flags are clear, and the lock state is unchanged |

## Left out

- Memory-mapped I/O, `write_volatile`, the `unsafe` pointer casts and the register-block layouts are replaced by the register records `Regs` and `Flash`.
- The `fence(SeqCst)` in `blocking_write` is not modelled as a separate effect. Program order is the order of the bus log.
- The interconnect (`Task::from_reg` and the PPI subsystem) is not part of this model. A task handle is the task register it names.
- The mapping from instance to register base address, and `get_flash_regions` with the sector geometry, are configuration tables and are left out. `Sector` keeps only the start address.
- The busy-wait has no timing. It is a scan over a finite trace of status values with a non-busy one in it, with no timeout.
- Counter dynamics are left out: counting at the prescaled clock, wrap at the BITMODE width, COMPARE events and the shortcuts firing. Only CLEAR, COUNT (a 32-bit increment) and CAPTURE touch the counter.
- Concurrency between `Cc` handles that share SHORTS and INTENCLR is left out. The driver provides no synchronisation.
- A `Cc` handle held across several calls is left out. In `NrfTimerRuns` each channel call takes the handle and drops it at once, as `timer.cc(n).write(v);` does.
- Shortcut-enabling operations are left out; the driver contains none.
- CR write protection while the controller is locked is left out. Only the LOCK bit's own behaviour is modelled.
- The higher flash layer that pairs `begin_write` / `end_write` around `blocking_write` and calls `unlock` / `lock` is not part of this model.
- NrfTimer.ZeroChannel: uses the corrected drop. As written, the pass disables every enabled interrupt, not only COMPARE[n]'s.
- NrfTimer.ZeroChannels: uses the corrected drop. As written, the loop leaves every interrupt disabled, not only the four COMPARE interrupts.
- NrfTimer.New: uses the corrected drop. As written, `new` leaves every interrupt of the timer disabled, whereas the model keeps the interrupts other than COMPARE[0..3] as they were.
- NrfTimerRuns.Step: a channel call drops its handle with the corrected drop. As written, it also disables every other enabled interrupt. The run lemmas do not depend on INTEN.
- `Cc::read` is modelled as `NrfTimer.Read` without a contract of its own. Its round trip is stated on `NrfTimer.Write` and `NrfTimer.Capture`.
- `NrfTimer.TaskCount`: COUNT increments the counter as a 32-bit word, without wrapping at the configured BITMODE width.
- `StmFlash.BeginWrite`: the `assert_eq!` on an odd `WRITE_SIZE` is a precondition, not a modelled panic. `WRITE_SIZE` is a compile-time constant.
- `StmFlash.BlockingWrite`: an odd buffer length (a panic in `try_into().unwrap()`) and an address counter that would overflow 32 bits are preconditions, not modelled panics.

## Findings

| source | as written | input that shows it | evidently intended | confidence | as-written member | corrected member |
|---|---|---|---|---|---|---|
| embassy-nrf/src/timerv2.rs:271-276 | `Drop for Cc` writes INTENCLR with the value read from INTENCLR OR'd with bit 16+n. INTENCLR reads back the set of enabled interrupts, and writing 1 disables them, so the write disables every enabled interrupt of the timer | Channel 1's COMPARE interrupt (bit 17) is enabled, then a handle for channel 0 is dropped: bit 17 is written as 1 and channel 1's interrupt is disabled | Write only bit 16+n, disabling the dropped channel's own COMPARE interrupt | medium, not executed (assumes the nRF52 read-back behaviour of INTENCLR) | NrfTimer.DropAsWritten, NrfTimer.DropAsWrittenDisablesOtherChannel | NrfTimer.Drop |
