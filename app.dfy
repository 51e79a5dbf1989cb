/** The program's top level: LED start-up, the button branch of the outer
    `blinking_loop`, the perpetual loop and the construct-or-skip logic of `main`. */
module App {
  import opened Board
  import opened Counters
  import Blinky
  import Arith

  /** `COUNTER_LIMIT`. */
  const COUNTER_LIMIT: nat := 60

  /** One `leds.iter_mut().for_each(..)` pass: drive every LED, in index order, to `high`. */
  method SetAll(leds: array<bool>, high: bool, rec: Recorder)
    modifies leds, rec
    ensures rec.trace == old(rec.trace) + AllWrites(leds.Length, high)
    ensures leds[..] == Apply(old(leds[..]), AllWrites(leds.Length, high))
    ensures forall i :: 0 <= i < leds.Length ==> leds[i] == high
  {
    for i := 0 to leds.Length
      invariant rec.trace == old(rec.trace) + AllWrites(i, high)
      invariant forall j :: 0 <= j < i ==> leds[j] == high
      invariant forall j :: i <= j < leds.Length ==> leds[j] == old(leds[j])
    {
      SetLed(leds, i, high, rec);
    }
    ApplyAllWrites(old(leds[..]), leds.Length, high);
    assert leds[..] == Levels(leds.Length, high) + old(leds[..])[leds.Length..];
  }

  /** The LED half of `init_leds_and_buttons`: the eight outputs are created high
      and then all switched off. */
  method InitLedsAndButtons(rec: Recorder) returns (leds: array<bool>)
    modifies rec
    ensures fresh(leds) && leds.Length == LED_COUNT
    ensures rec.trace == old(rec.trace) + AllWrites(leds.Length, false)
    ensures leds[..] == Apply(Levels(leds.Length, true), AllWrites(leds.Length, false))
    ensures forall i :: 0 <= i < leds.Length ==> !leds[i]
  {
    leds := new bool[LED_COUNT](_ => true);
    assert leds[..] == Levels(LED_COUNT, true);
    SetAll(leds, false, rec);
  }

  /** The trace of one iteration over `n` LEDs while the button reads low. */
  function PressedTrace(n: nat): (r: seq<Event>)
  {
    AllWrites(n, true) + [Reset]
  }

  /** The trace of one iteration over `n` LEDs while the button reads high and the counter shows `v`. */
  function ReleasedTrace(n: nat, v: nat): (r: seq<Event>)
    requires n > 0
  {
    AllWrites(n, false) + Blinky.CycleTrace(n, v)
  }

  /** The trace of one call of the outer `blinking_loop`, by the level the button reads. */
  function IterationTrace(n: nat, low: bool, v: nat): (r: seq<Event>)
    requires n > 0
  {
    if low then PressedTrace(n) else ReleasedTrace(n, v)
  }

  /** The counter value after one iteration: reset when the button reads low, advanced
      otherwise, wrapping to zero at the limit (for a value below the limit this is
      `(v + 1) % limit`, see `NextValueWraps`). */
  function NextValue(low: bool, v: nat, limit: nat): (r: nat)
    requires limit > 0
    ensures r < limit
    ensures low ==> r == 0
  {
    if low then 0 else if v + 1 < limit then v + 1 else 0
  }

  /** On a high reading, a valid counter value moves by one modulo the limit, as `count` does. */
  lemma NextValueWraps(v: nat, limit: nat)
    requires v < limit
    ensures NextValue(false, v, limit) == (v + 1) % limit
  {
    Arith.ModSucc(v, limit);
    Arith.ModSmall(v, limit);
  }

  /** Button low: every LED ends high. */
  lemma PressedLevels(s: seq<bool>)
    ensures Apply(s, PressedTrace(|s|)) == Levels(|s|, true)
  {
    var high := Levels(|s|, true);
    ApplyAllWrites(s, |s|, true);
    assert s[|s|..] == [];
    assert Apply(s, AllWrites(|s|, true)) == high;
    ApplyConcat(s, AllWrites(|s|, true), [Reset]);
    ApplySingle(high, Reset);
  }

  /** Button low: `reset` is called exactly once, and neither `count` nor
      `get_counter` is called. */
  lemma PressedCalls(n: nat)
    ensures multiset(PressedTrace(n))[Reset] == 1
    ensures Count !in PressedTrace(n)
    ensures forall e :: e in PressedTrace(n) ==> !e.Show?
  {
    assert Reset !in AllWrites(n, true);
  }

  /** Button high: the counter is read first, then the LED at `v % n` (a valid index)
      is driven high and low, then the counter is advanced. */
  lemma ReleasedShape(n: nat, v: nat)
    requires n > 0
    ensures v % n < n
    ensures ReleasedTrace(n, v) == AllWrites(n, false) + [Show(v), Write(v % n, true), Write(v % n, false), Count]
  {
    Blinky.CycleTraceShape(n, v);
  }

  /** Button high: every LED ends low. */
  lemma ReleasedLevels(s: seq<bool>, v: nat)
    requires |s| > 0
    ensures Apply(s, ReleasedTrace(|s|, v)) == Levels(|s|, false)
  {
    var n := |s|;
    var off := Levels(n, false);
    ApplyAllWrites(s, n, false);
    assert s[n..] == [];
    assert Levels(n, false) + s[n..] == off;
    assert Apply(s, AllWrites(n, false)) == off;
    ApplyConcat(s, AllWrites(n, false), Blinky.CycleTrace(n, v));
    assert Apply(s, ReleasedTrace(n, v)) == Apply(off, Blinky.CycleTrace(n, v));
    Blinky.ApplyCycle(off, v);
    assert off[v % n := false] == off;
  }

  /** Button high: exactly one high write, to the LED at `v % n`, and none to any other LED. */
  lemma ReleasedPulsesOne(n: nat, v: nat)
    requires n > 0
    ensures multiset(ReleasedTrace(n, v))[Write(v % n, true)] == 1
    ensures forall j :: j != v % n ==> Write(j, true) !in ReleasedTrace(n, v)
  {
    var k := v % n;
    var low := AllWrites(n, false);
    var tail := [Show(v), Write(k, true), Write(k, false), Count];
    ReleasedShape(n, v);
    assert Write(k, true) !in low;
    assert multiset(tail)[Write(k, true)] == 1;
    forall j | j != k
      ensures Write(j, true) !in ReleasedTrace(n, v)
    {
      assert Write(j, true) !in low;
      assert Write(j, true) !in tail;
    }
  }

  /** Button high: `count` is called exactly once, as the last action, and `reset` is not called. */
  lemma ReleasedCountsOnce(n: nat, v: nat)
    requires n > 0
    ensures multiset(ReleasedTrace(n, v))[Count] == 1
    ensures ReleasedTrace(n, v)[|ReleasedTrace(n, v)| - 1] == Count
    ensures Reset !in ReleasedTrace(n, v)
  {
    var k := v % n;
    var low := AllWrites(n, false);
    var before := [Show(v), Write(k, true), Write(k, false)];
    ReleasedShape(n, v);
    assert ReleasedTrace(n, v) == (low + before) + [Count];
    assert Count !in low + before by {
      assert Count !in low;
    }
    assert Reset !in low + before by {
      assert Reset !in low;
    }
    assert multiset(low + before)[Count] == 0;
    assert multiset((low + before) + [Count]) == multiset(low + before) + multiset([Count]);
  }

  /** The outer `blinking_loop`: one iteration, chosen by the button level. */
  method BlinkingLoop(leds: array<bool>, counter: LimitCounter, low: bool, rec: Recorder)
    requires leds.Length == LED_COUNT && counter.Valid()
    modifies leds, counter, rec
    ensures counter.Valid()
    ensures counter.value == NextValue(low, old(counter.value), counter.limit)
    ensures rec.trace == old(rec.trace) + IterationTrace(leds.Length, low, old(counter.value))
    ensures leds[..] == Apply(old(leds[..]), IterationTrace(leds.Length, low, old(counter.value)))
    ensures forall i :: 0 <= i < leds.Length ==> leds[i] == low
  {
    ghost var v, t0, s0 := counter.value, rec.trace, leds[..];
    ghost var n := leds.Length;
    if low {
      SetAll(leds, true, rec);
      counter.Reset(rec);
      assert IterationTrace(n, low, v) == PressedTrace(n);
      AppendAssoc(t0, AllWrites(n, true), [Reset]);
      PressedLevels(s0);
    } else {
      SetAll(leds, false, rec);
      ghost var pass := leds[..];
      assert counter.value == v;
      Blinky.BlinkingLoop(leds, counter, rec);
      assert counter.value == NextValue(false, v, counter.limit) by {
        NextValueWraps(v, counter.limit);
      }
      assert IterationTrace(n, low, v) == ReleasedTrace(n, v);
      AppendAssoc(t0, AllWrites(n, false), Blinky.CycleTrace(n, v));
      assert leds[..] == Apply(pass, Blinky.CycleTrace(n, v));
      ApplyConcat(s0, AllWrites(n, false), Blinky.CycleTrace(n, v));
      ReleasedLevels(s0, v);
    }
  }

  /** The trace of the perpetual `loop` over `n` LEDs, given the button levels read
      in successive iterations. */
  function LoopTrace(n: nat, v: nat, limit: nat, readings: seq<bool>): (r: seq<Event>)
    requires n > 0 && limit > 0
    decreases |readings|
  {
    if readings == [] then []
    else IterationTrace(n, readings[0], v) + LoopTrace(n, NextValue(readings[0], v, limit), limit, readings[1..])
  }

  /** The counter value after those iterations. */
  function LoopValue(v: nat, limit: nat, readings: seq<bool>): (r: nat)
    requires limit > 0
    decreases |readings|
  {
    if readings == [] then v else LoopValue(NextValue(readings[0], v, limit), limit, readings[1..])
  }

  /** One iteration appended to the readings before `i`. */
  lemma LoopExtend(n: nat, v: nat, limit: nat, readings: seq<bool>, i: nat)
    requires n > 0 && limit > 0 && i < |readings|
    ensures LoopTrace(n, v, limit, readings[..i + 1])
      == LoopTrace(n, v, limit, readings[..i]) + IterationTrace(n, readings[i], LoopValue(v, limit, readings[..i]))
    ensures LoopValue(v, limit, readings[..i + 1])
      == NextValue(readings[i], LoopValue(v, limit, readings[..i]), limit)
  {
    assert readings[..i + 1] == readings[..i] + [readings[i]];
    LoopConcat(n, v, limit, readings[..i], [readings[i]]);
    LoopValueConcat(v, limit, readings[..i], [readings[i]]);
    assert [readings[i]][1..] == [];
  }

  /** `loop { blinking_loop(..) }`, run for one iteration per button reading. */
  method Run(leds: array<bool>, counter: LimitCounter, readings: seq<bool>, rec: Recorder)
    requires leds.Length == LED_COUNT && counter.Valid()
    modifies leds, counter, rec
    ensures counter.Valid()
    ensures counter.value == LoopValue(old(counter.value), counter.limit, readings)
    ensures rec.trace == old(rec.trace) + LoopTrace(leds.Length, old(counter.value), counter.limit, readings)
    ensures leds[..] == Apply(old(leds[..]), LoopTrace(leds.Length, old(counter.value), counter.limit, readings))
    ensures readings != [] ==> forall i :: 0 <= i < leds.Length ==> leds[i] == readings[|readings| - 1]
  {
    ghost var t0, v0, s0 := rec.trace, counter.value, leds[..];
    for i := 0 to |readings|
      invariant counter.Valid()
      invariant counter.value == LoopValue(v0, counter.limit, readings[..i])
      invariant rec.trace == t0 + LoopTrace(leds.Length, v0, counter.limit, readings[..i])
      invariant leds[..] == Apply(s0, LoopTrace(leds.Length, v0, counter.limit, readings[..i]))
      invariant 0 < i ==> forall j :: 0 <= j < leds.Length ==> leds[j] == readings[i - 1]
    {
      ghost var done := LoopTrace(leds.Length, v0, counter.limit, readings[..i]);
      ghost var it := IterationTrace(leds.Length, readings[i], counter.value);
      LoopExtend(leds.Length, v0, counter.limit, readings, i);
      BlinkingLoop(leds, counter, readings[i], rec);
      ApplyConcat(s0, done, it);
      AppendAssoc(t0, done, it);
    }
    assert readings[..|readings|] == readings;
  }

  /** The trace of `main` over `n` LEDs: the start-up pass, then the loop when the
      counter can be built. */
  function StartTrace(n: nat, initial: nat, limit: nat, readings: seq<bool>): (r: seq<Event>)
    requires n > 0
  {
    AllWrites(n, false) + (if initial < limit then LoopTrace(n, initial, limit, readings) else [])
  }

  /** `main`: set the LEDs up, build the counter and, only when that succeeds, loop. */
  method Start(initial: nat, limit: nat, readings: seq<bool>, rec: Recorder) returns (leds: array<bool>, started: bool)
    modifies rec
    ensures fresh(leds) && leds.Length == LED_COUNT
    ensures started <==> initial < limit
    ensures rec.trace == old(rec.trace) + StartTrace(leds.Length, initial, limit, readings)
    ensures leds[..] == Apply(Levels(leds.Length, true), StartTrace(leds.Length, initial, limit, readings))
  {
    leds := InitLedsAndButtons(rec);
    var limitCounter := LimitCounter.New(initial, limit);
    match limitCounter
    case None =>
      // `main` prints a diagnostic that the initial value is not below the limit.
      started := false;
      assert AllWrites(leds.Length, false) + [] == AllWrites(leds.Length, false);
    case Some(lc) =>
      started := true;
      ghost var init := AllWrites(leds.Length, false);
      ghost var run := LoopTrace(leds.Length, initial, limit, readings);
      Run(leds, lc, readings, rec);
      ApplyConcat(Levels(leds.Length, true), init, run);
      AppendAssoc(old(rec.trace), init, run);
  }

  /** `main` as configured: `LimitCounter::new(COUNTER_LIMIT + 6, COUNTER_LIMIT)` fails,
      so the LEDs stay off and the blinking loop is never entered. */
  method Startup(readings: seq<bool>, rec: Recorder) returns (leds: array<bool>, started: bool)
    modifies rec
    ensures fresh(leds) && leds.Length == LED_COUNT
    ensures !started
    ensures rec.trace == old(rec.trace) + AllWrites(leds.Length, false)
    ensures forall i :: 0 <= i < leds.Length ==> !leds[i]
  {
    leds, started := Start(COUNTER_LIMIT + 6, COUNTER_LIMIT, readings, rec);
    assert StartTrace(leds.Length, COUNTER_LIMIT + 6, COUNTER_LIMIT, readings) == AllWrites(leds.Length, false) + [];
    assert AllWrites(leds.Length, false) + [] == AllWrites(leds.Length, false);
    ApplyAllWrites(Levels(leds.Length, true), leds.Length, false);
  }

  /** The counter value after the readings `a + b` is that after `a`, then `b`. */
  lemma {:induction false} LoopValueConcat(v: nat, limit: nat, a: seq<bool>, b: seq<bool>)
    requires limit > 0
    ensures LoopValue(v, limit, a + b) == LoopValue(LoopValue(v, limit, a), limit, b)
    decreases |a|
  {
    if a == [] {
      assert a + b == b;
    } else {
      assert (a + b)[0] == a[0];
      assert (a + b)[1..] == a[1..] + b;
      LoopValueConcat(NextValue(a[0], v, limit), limit, a[1..], b);
    }
  }

  /** Running the readings `a` and then `b` is running `a + b`. */
  lemma {:induction false} LoopConcat(n: nat, v: nat, limit: nat, a: seq<bool>, b: seq<bool>)
    requires n > 0 && limit > 0
    ensures LoopTrace(n, v, limit, a + b)
      == LoopTrace(n, v, limit, a) + LoopTrace(n, LoopValue(v, limit, a), limit, b)
    decreases |a|
  {
    if a == [] {
      assert a + b == b;
    } else {
      assert (a + b)[0] == a[0];
      assert (a + b)[1..] == a[1..] + b;
      LoopConcat(n, NextValue(a[0], v, limit), limit, a[1..], b);
    }
  }

  /** `m` successive readings of a button that reads high. */
  function Released(m: nat): (r: seq<bool>)
    ensures |r| == m
    ensures forall j :: 0 <= j < m ==> !r[j]
  {
    seq(m, _ => false)
  }

  /** One more released reading advances the counter once more. */
  lemma ReleasedRunStep(v: nat, limit: nat, m: nat)
    requires limit > 0
    ensures LoopValue(v, limit, Released(m + 1)) == NextValue(false, LoopValue(v, limit, Released(m)), limit)
  {
    assert Released(m + 1) == Released(m) + [false];
    LoopValueConcat(v, limit, Released(m), [false]);
    assert [false][1..] == [];
  }

  /** The closed form carries over one more released reading. */
  lemma ReleasedRunValueStep(v: nat, limit: nat, m: nat)
    requires limit > 0
    requires LoopValue(v, limit, Released(m)) == (v + m) % limit
    ensures LoopValue(v, limit, Released(m + 1)) == (v + (m + 1)) % limit
  {
    ReleasedRunStep(v, limit, m);
    Arith.ModSucc(v + m, limit);
    assert v + m + 1 == v + (m + 1);
  }

  /** While the button reads high, the counter advances by one per iteration, modulo its limit. */
  lemma {:induction false} ReleasedRunValue(v: nat, limit: nat, m: nat)
    requires v < limit
    ensures LoopValue(v, limit, Released(m)) == (v + m) % limit
  {
    if m == 0 {
      assert Released(m) == [];
      Arith.ModSmall(v, limit);
    } else {
      ReleasedRunValue(v, limit, m - 1);
      ReleasedRunValueStep(v, limit, m - 1);
    }
  }

  /** While the button reads high, iteration `m` (counting from 0) is the released
      iteration for the counter value `(v + m) % limit`, so it pulses the LED at
      `((v + m) % limit) % n`. */
  lemma ReleasedRunPulses(n: nat, v: nat, limit: nat, m: nat)
    requires n > 0 && v < limit
    ensures LoopTrace(n, v, limit, Released(m + 1))
      == LoopTrace(n, v, limit, Released(m)) + ReleasedTrace(n, (v + m) % limit)
  {
    var prefix := Released(m);
    assert Released(m + 1) == prefix + [false];
    LoopConcat(n, v, limit, prefix, [false]);
    LoopValueConcat(v, limit, prefix, [false]);
    ReleasedRunValue(v, limit, m);
    var w := (v + m) % limit;
    assert [false][1..] == [];
    assert LoopTrace(n, w, limit, [false]) == ReleasedTrace(n, w) + [];
  }

  /** From 0, `limit - 1` advances reach `limit - 1` and one more wraps to 0
      (with `COUNTER_LIMIT`: 59 advances reach 59, the 60th gives 0). */
  lemma CounterWraps(limit: nat)
    requires limit > 0
    ensures LoopValue(0, limit, Released(limit - 1)) == limit - 1
    ensures LoopValue(0, limit, Released(limit)) == 0
  {
    ReleasedRunValue(0, limit, limit - 1);
    Arith.ModUnique(limit - 1, limit, 0, limit - 1);
    ReleasedRunValue(0, limit, limit);
    Arith.ModUnique(limit, limit, 1, 0);
  }
}
