/** What can be observed of the board: the levels of the eight LEDs, and the
    ordered trace of the program's actions on the LEDs and on the counter. Every
    LED write goes through `SetLed` and every counter call appends its own event,
    so the trace a `Recorder` holds is the actions the program really took. */
module Board {

  /** `LED_COUNT`: the number of LEDs, PB8 to PB15. */
  const LED_COUNT: nat := 8

  /** One action of the program, in the order it happens. */
  datatype Event =
    | Write(index: nat, high: bool)  // `set_high` (high) or `set_low` (low) on the LED at `index`
    | Show(value: nat)               // `get_counter` returned `value`
    | Count                          // `count` was called
    | Reset                          // `reset` was called

  /** The observer of the program's actions: the operations that act on an LED or on
      the counter append their event to `trace`, and nothing else changes it. */
  class Recorder {
    ghost var trace: seq<Event>
  }

  /** `set_high` (when `high`) or `set_low` on the LED at `i`: that LED changes, no
      other does, and the write is recorded. */
  method SetLed(leds: array<bool>, i: nat, high: bool, rec: Recorder)
    requires i < leds.Length
    modifies leds, rec
    ensures leds[..] == old(leds[..])[i := high]
    ensures leds[..] == Apply(old(leds[..]), [Write(i, high)])
    ensures rec.trace == old(rec.trace) + [Write(i, high)]
  {
    leds[i] := high;
    rec.trace := rec.trace + [Write(i, high)];
    ApplySingle(old(leds[..]), Write(i, high));
  }

  /** `n` LEDs all at one level. */
  function Levels(n: nat, high: bool): (r: seq<bool>)
    ensures |r| == n
    ensures forall j :: 0 <= j < n ==> r[j] == high
  {
    seq(n, _ => high)
  }

  /** The LED levels after one event: a write changes its own LED and no other. */
  function Step(s: seq<bool>, e: Event): (r: seq<bool>)
    ensures |r| == |s|
    ensures forall j :: 0 <= j < |s| ==> r[j] == (if e.Write? && e.index == j then e.high else s[j])
  {
    if e.Write? && e.index < |s| then s[e.index := e.high] else s
  }

  /** The LED levels after a whole trace, starting from the levels `s`. */
  function Apply(s: seq<bool>, events: seq<Event>): (r: seq<bool>)
    ensures |r| == |s|
    decreases |events|
  {
    if events == [] then s else Apply(Step(s, events[0]), events[1..])
  }

  /** Replaying two traces one after the other is replaying their concatenation. */
  lemma {:induction false} ApplyConcat(s: seq<bool>, a: seq<Event>, b: seq<Event>)
    ensures Apply(s, a + b) == Apply(Apply(s, a), b)
    decreases |a|
  {
    if a == [] {
      assert a + b == b;
    } else {
      assert (a + b)[0] == a[0];
      assert (a + b)[1..] == a[1..] + b;
      ApplyConcat(Step(s, a[0]), a[1..], b);
    }
  }

  /** Appending to a recorded trace in two steps is appending their concatenation. */
  lemma AppendAssoc(t: seq<Event>, a: seq<Event>, b: seq<Event>)
    ensures t + a + b == t + (a + b)
  {
  }

  /** Replaying a single event is one step. */
  lemma ApplySingle(s: seq<bool>, e: Event)
    ensures Apply(s, [e]) == Step(s, e)
  {
    assert [e][1..] == [];
  }

  /** The writes of one `iter_mut().for_each` pass that drives the first `n` LEDs to one level. */
  function AllWrites(n: nat, high: bool): (r: seq<Event>)
    ensures |r| == n
    ensures forall j :: 0 <= j < n ==> r[j] == Write(j, high)
  {
    if n == 0 then [] else AllWrites(n - 1, high) + [Write(n - 1, high)]
  }

  /** After such a pass the first `n` LEDs are at that level and the others are untouched. */
  lemma {:induction false} ApplyAllWrites(s: seq<bool>, n: nat, high: bool)
    requires n <= |s|
    ensures Apply(s, AllWrites(n, high)) == Levels(n, high) + s[n..]
  {
    if n > 0 {
      var before := Levels(n - 1, high) + s[n - 1..];
      ApplyAllWrites(s, n - 1, high);
      ApplyConcat(s, AllWrites(n - 1, high), [Write(n - 1, high)]);
      assert Apply(before, [Write(n - 1, high)]) == Step(before, Write(n - 1, high));
      assert Step(before, Write(n - 1, high)) == Levels(n, high) + s[n..];
    }
  }
}
