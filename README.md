# Blinky with a limit counter and a reset button

A model of the STM32F1 example program `blinky`. Eight LEDs (PB8 to PB15) are
driven by a perpetual loop. Each pass reads a button (PC13):

- When the button reads low, every LED is driven high and a bounded counter is reset.
- Otherwise every LED is driven low. Then the LED whose index equals the counter
  value modulo eight gets one pulse (high, a one-second delay, low), and the counter
  is advanced.

The counter is built by `LimitCounter::new(initial, limit)`, which fails when
`initial` is not below `limit`. `main` builds it with `COUNTER_LIMIT + 6` and
`COUNTER_LIMIT`, so as configured the construction fails and the loop is never
entered.

The model has five modules:

- `Counters`: the `LimitCounter` class. Its fields `value` and `limit` keep the invariant `value < limit`. It has `New`, which returns an `Option`, and the methods `Count`, `Reset` and `Show`. Each of the three methods appends its own event to the `Recorder` it is given.
- `Board`: the observable behaviour. The LEDs are an `array<bool>` (true = high). A `Recorder` object holds the ordered trace of `Event`s the program performs: an LED write, a counter read, a count or a reset. Every LED write goes through `SetLed`, which changes the one LED and records the write. So the recorded trace is produced by the real operations and is not typed by hand. `Apply` replays a trace on LED levels.
- `Blinky`: the inner module `blinky`. It contains `blink_led` and the inner `blinking_loop`, which pulses one LED per call.
- `App`: the rest of the program:
  - start-up (`init_leds_and_buttons`);
  - the button branch of the outer `blinking_loop`;
  - the perpetual `loop`, run once per button reading in a finite sequence;
  - `main`'s construct-or-skip logic.
- `Arith`: facts about Euclidean remainder used by the lemmas about the counter's wrap-around.

Every method that acts on the board states its effect on the `Recorder` as `trace == old(trace) + T`, where `T` is a trace function of the inputs.
The methods that write LEDs on an existing array (`SetLed`, `BlinkLed`, both `BlinkingLoop`s, `SetAll` and `Run`) also state that the final LED array is `Apply(old levels, T)`.
The exceptions:

- `InitLedsAndButtons` and `Start` replay their trace from all-high levels, because they create the LEDs high.
- `Startup` states the final levels directly (all low).
- The `Counters` methods state the counter value instead.

## Model

| member | source | states |
|---|---|---|
| Counters.LimitCounter.New | examples/stm32f1/src/bin/blinky.rs:20-22 | construction succeeds exactly when the initial value is below the limit, and the new counter then holds that value and limit and satisfies its invariant |
| Counters.LimitCounter.constructor | examples/stm32f1/src/bin/blinky.rs:20 | a counter built from an initial value below the limit holds that value and limit and satisfies its invariant |
| Counters.LimitCounter.Count | examples/stm32f1/src/bin/blinky.rs:88 | `count` keeps the invariant, advances the value by one modulo the limit, and records one `Count` |
| Counters.LimitCounter.Reset | examples/stm32f1/src/bin/blinky.rs:61 | `reset` keeps the invariant, sets the value to zero, and records one `Reset` |
| Counters.LimitCounter.Show | examples/stm32f1/src/bin/blinky.rs:78 | `get_counter` returns the current value, which is below the limit, leaves the counter unchanged, and records `Show(value)` |
| Board.SetLed | examples/stm32f1/src/bin/blinky.rs:92 | `set_high`/`set_low` changes exactly the LED written (the replay of that one write), and records exactly that write |
| Board.AllWrites | examples/stm32f1/src/bin/blinky.rs:49 | a `for_each` pass writes every LED exactly once, in index order, all to the same level |
| Board.ApplyAllWrites | examples/stm32f1/src/bin/blinky.rs:49 | after such a pass the LEDs it covered are all at that level and the others are unchanged |
| Blinky.BlinkLed | examples/stm32f1/src/bin/blinky.rs:91-95 | `blink_led` performs exactly a high write then a low write on its LED, and afterwards that LED is low and every other LED is as before |
| Blinky.ApplyPulse | examples/stm32f1/src/bin/blinky.rs:91-95 | a pulse on LED `k` leaves LED `k` low and every other LED at its old level |
| Blinky.PulseTraceIsOnePulse | examples/stm32f1/src/bin/blinky.rs:82-86 | the enumerating loop pulses the LED whose index equals the remainder, and exactly that LED, when one exists; otherwise it pulses none |
| Blinky.CycleTraceShape | examples/stm32f1/src/bin/blinky.rs:77-89 | one inner `blinking_loop` call does exactly four things, in order: it reads the counter value `v`, drives LED `v % 8` high, drives it low, and counts once |
| Blinky.ApplyCycle | examples/stm32f1/src/bin/blinky.rs:80-88 | one inner call leaves LED `v % n` low and every other LED unchanged |
| Blinky.BlinkingLoop | examples/stm32f1/src/bin/blinky.rs:77-89 | the inner `blinking_loop` records exactly the cycle's trace: a read of `v`, the pulse of LED `v % 8`, then one count. It advances the counter once (modulo its limit), keeps its invariant, and leaves only LED `v % 8` changed (now low) |
| App.SetAll | examples/stm32f1/src/bin/blinky.rs:49 | the pass records exactly one write per LED, in index order, and leaves every LED at the requested level |
| App.InitLedsAndButtons | examples/stm32f1/src/bin/blinky.rs:37-52 | the eight LEDs start high, the recorded pass switches each one off in order, and all eight are low on return |
| App.NextValue | examples/stm32f1/src/bin/blinky.rs:59-64 | the counter value after one outer iteration stays below the limit and is zero whenever the button reads low |
| App.NextValueWraps | examples/stm32f1/src/bin/blinky.rs:88 | on a released iteration the next value is `(v + 1) % limit`, the value `count` produces |
| App.PressedLevels | examples/stm32f1/src/bin/blinky.rs:59-60 | a pressed iteration leaves every LED high, whatever the LEDs were before |
| App.PressedCalls | examples/stm32f1/src/bin/blinky.rs:59-61 | a pressed iteration resets exactly once, never counts and never reads the counter |
| App.ReleasedShape | examples/stm32f1/src/bin/blinky.rs:62-65 | a released iteration is the all-low pass followed by the counter read, one pulse of LED `v % n`, and one count |
| App.ReleasedLevels | examples/stm32f1/src/bin/blinky.rs:63-64 | a released iteration leaves every LED low, whatever the LEDs were before |
| App.ReleasedPulsesOne | examples/stm32f1/src/bin/blinky.rs:80-86 | in a released iteration, LED `v % n` is driven high exactly once, and no other LED is driven high |
| App.ReleasedCountsOnce | examples/stm32f1/src/bin/blinky.rs:78-88 | a released iteration counts exactly once, counts as its last action, and never resets |
| App.BlinkingLoop | examples/stm32f1/src/bin/blinky.rs:55-66 | the outer `blinking_loop` records exactly that branch's trace (together with `PressedCalls` and `ReleasedCountsOnce`: one reset and no count when low; one count, after the pulse, when high). It resets or advances the counter accordingly, keeps its invariant, and leaves every LED high when the button reads low and low otherwise |
| App.Run | examples/stm32f1/src/bin/blinky.rs:25-27 | running the loop once per reading records the composed trace, yields the composed counter value, and after a non-empty run leaves every LED high when the last reading is low and low otherwise |
| App.ReleasedRunValue | examples/stm32f1/src/bin/blinky.rs:25-27 | while the button reads high, `m` iterations take the counter from `v` to `(v + m) % limit` |
| App.ReleasedRunPulses | examples/stm32f1/src/bin/blinky.rs:25-27 | while the button reads high, iteration `m` is the released iteration for the value `(v + m) % limit`, so it pulses LED `((v + m) % limit) % 8`. With limit 60, which is not a multiple of 8, value 59 (LED 3) is followed by value 0 (LED 0) |
| App.CounterWraps | examples/stm32f1/src/bin/blinky.rs:13 | from zero, `limit - 1` released iterations reach `limit - 1`, and one more wraps the counter to zero |
| App.Start | examples/stm32f1/src/bin/blinky.rs:16-29 | `main` always records the LED start-up pass. It enters the loop exactly when construction succeeds, records that loop's trace after the pass, and the LEDs end as the combined trace leaves them |
| App.Startup | examples/stm32f1/src/bin/blinky.rs:20-22 | `main` as configured (initial 66, limit 60) never enters the loop: the start-up pass is the only thing recorded, and all LEDs stay low |

## Left out

- Counters.LimitCounter: the `counters` module declared at blinky.rs:4 is not modelled. These behaviours are assumptions:
  - `new` fails unless the initial value is below the limit. This is the rule stated by the diagnostic in `main`.
  - `count` sets the value to `(value + 1) % limit`.
  - `reset` sets the value to 0.

  Only the order and number of these calls come from blinky.rs.
- Under the assumed construction rule no counter has limit zero, so the model does not cover any behaviour for that case.
- The `Recorder` records the writes that go through `SetLed` and the counter calls. A direct assignment to the LED array elsewhere would not be recorded. Nothing in the model forbids such an assignment; instead, every LED write in the model goes through `SetLed`. The `Recorder` parameter has no counterpart in the program. It is the observer through which the order and number of actions are stated.
- The trait bounds are replaced by the concrete `LimitCounter` class, since no other implementation exists in the program. The bounds are `Count + Reset + Show` on the outer `blinking_loop` and `Count + Show` on the inner one. The inner bound guarantees that `reset` cannot be called there. The model states that guarantee through `Blinky.BlinkingLoop`'s trace contract instead: the recorded calls are exactly `CycleTrace`, which holds no `Reset`.
- The async executor, `Spawner` and every `.await` are left out. The model is sequential, and each await is a plain call.
- `Timer::after_millis` and `BLINK_INTERVAL` are left out. The delay between the two writes of a pulse has no observable effect on the trace.
- Peripheral bring-up is left out: `embassy_stm32::init`, the pin numbers, `Speed::Low`, and the button's `Pull::Down` configuration. The button is a boolean level read once per iteration, with no debouncing. The names `Pressed…` and `Released…` mean only "reads low" and "reads high". With the pull-down, an open button most likely reads low, so the names carry no claim about the physical button.
- The `info!`/`println!` logging, defmt-RTT and panic-probe are left out. The failure diagnostic in `main` is only a comment.
- The perpetual `loop` is modelled as one iteration per element of a finite sequence of button readings. Properties of the infinite run are stated for every finite prefix.
- `usize` width is not modelled. The counter value is always below its limit, so under the assumed `count`, `value + 1` cannot overflow, and `% leds.len()` divides by the constant 8.
