/** The inner module `blinky`: one step of the blinking pattern. */
module Blinky {
  import opened Board
  import opened Counters

  /** The trace of `blink_led` on the LED at `k`: high, then (after the delay) low. */
  function Pulse(k: nat): (r: seq<Event>)
  {
    [Write(k, true), Write(k, false)]
  }

  /** A pulse leaves its LED low and every other LED as it was. */
  lemma ApplyPulse(s: seq<bool>, k: nat)
    requires k < |s|
    ensures Apply(s, Pulse(k)) == s[k := false]
  {
    var high := Step(s, Write(k, true));
    assert Pulse(k)[1..] == [Write(k, false)];
    assert Apply(s, Pulse(k)) == Apply(high, [Write(k, false)]);
    assert Apply(high, [Write(k, false)]) == Step(high, Write(k, false));
  }

  /** The trace of the enumerating `for` loop over the first `n` LEDs, which pulses
      the LED whose index equals `k` and leaves every other LED alone. */
  function PulseTrace(n: nat, k: nat): (r: seq<Event>)
  {
    if n == 0 then [] else PulseTrace(n - 1, k) + (if n - 1 == k then Pulse(k) else [])
  }

  /** The loop pulses exactly the LED at `k` when there is one, and nothing otherwise. */
  lemma {:induction false} PulseTraceIsOnePulse(n: nat, k: nat)
    ensures PulseTrace(n, k) == if k < n then Pulse(k) else []
  {
    if n > 0 {
      PulseTraceIsOnePulse(n - 1, k);
    }
  }

  /** The trace of `blinky::blinking_loop` over `n` LEDs when the counter shows `v`:
      read the counter, pulse the LED at `v % n`, then advance the counter. */
  function CycleTrace(n: nat, v: nat): (r: seq<Event>)
    requires n > 0
  {
    [Show(v)] + PulseTrace(n, v % n) + [Count]
  }

  /** The LED pulsed is the one at `v % n`, which is a valid index; the counter is
      read before the pulse and advanced after it. */
  lemma CycleTraceShape(n: nat, v: nat)
    requires n > 0
    ensures v % n < n
    ensures CycleTrace(n, v) == [Show(v), Write(v % n, true), Write(v % n, false), Count]
  {
    PulseTraceIsOnePulse(n, v % n);
  }

  /** One cycle leaves the pulsed LED low and every other LED as it was. */
  lemma ApplyCycle(s: seq<bool>, v: nat)
    requires |s| > 0
    ensures Apply(s, CycleTrace(|s|, v)) == s[v % |s| := false]
  {
    var k := v % |s|;
    PulseTraceIsOnePulse(|s|, k);
    assert CycleTrace(|s|, v) == ([Show(v)] + Pulse(k)) + [Count];
    ApplyConcat(s, [Show(v)] + Pulse(k), [Count]);
    ApplyConcat(s, [Show(v)], Pulse(k));
    ApplySingle(s, Show(v));
    ApplyPulse(s, k);
    ApplySingle(s[k := false], Count);
  }

  /** `blink_led`: drive the LED at `i` high, wait, drive it low. */
  method BlinkLed(leds: array<bool>, i: nat, rec: Recorder)
    requires i < leds.Length
    modifies leds, rec
    ensures rec.trace == old(rec.trace) + Pulse(i)
    ensures leds[..] == Apply(old(leds[..]), Pulse(i))
    ensures leds[..] == old(leds[..])[i := false]
  {
    SetLed(leds, i, true, rec);
    // The delay `Timer::after_millis(BLINK_INTERVAL)` has no effect on the state.
    SetLed(leds, i, false, rec);
    ApplyPulse(old(leds[..]), i);
  }

  /** `blinky::blinking_loop`: pulse the LED at `get_counter() % leds.len()`, then `count`. */
  method BlinkingLoop(leds: array<bool>, counter: LimitCounter, rec: Recorder)
    requires leds.Length == LED_COUNT && counter.Valid()
    modifies leds, counter, rec
    ensures counter.Valid()
    ensures counter.value == (old(counter.value) + 1) % counter.limit
    ensures rec.trace == old(rec.trace) + CycleTrace(leds.Length, old(counter.value))
    ensures leds[..] == Apply(old(leds[..]), CycleTrace(leds.Length, old(counter.value)))
    ensures leds[..] == old(leds[..])[old(counter.value) % leds.Length := false]
  {
    var v := counter.Show(rec);
    var k := v % leds.Length;
    for i := 0 to leds.Length
      invariant counter.value == v
      invariant rec.trace == old(rec.trace) + [Show(v)] + PulseTrace(i, k)
      invariant leds[..] == Apply(old(leds[..]), PulseTrace(i, k))
    {
      if i == k {
        ghost var before := leds[..];
        BlinkLed(leds, i, rec);
        assert PulseTrace(i + 1, k) == PulseTrace(i, k) + Pulse(k);
        ApplyConcat(old(leds[..]), PulseTrace(i, k), Pulse(k));
        assert leds[..] == Apply(before, Pulse(k));
      } else {
        assert PulseTrace(i + 1, k) == PulseTrace(i, k) + [];
        assert PulseTrace(i, k) + [] == PulseTrace(i, k);
      }
    }
    counter.Count(rec);
    PulseTraceIsOnePulse(leds.Length, k);
    ApplyPulse(old(leds[..]), k);
    ApplyCycle(old(leds[..]), v);
  }
}
