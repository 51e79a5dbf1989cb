/** The bounded counter the blinking loop drives through its `Count`, `Reset` and
    `Show` capabilities. The `counters` module (`mod counters;`, blinky.rs:4) is
    not modelled, so its behaviour is assumed: `new` fails unless the initial value
    is below the limit (the rule the start-up diagnostic states), `count` sets the
    value to `(value + 1) % limit`, and `reset` sets it to 0. Each call records its
    own event, so the order and number of the calls the program makes can be checked. */
module Counters {
  import Board

  datatype Option<T> = None | Some(value: T)

  class LimitCounter {
    /** The current counter value, as `get_counter` shows it. */
    var value: nat
    /** The exclusive upper bound. */
    const limit: nat

    /** The counter invariant: the value is always below the limit (so the limit is positive). */
    ghost predicate Valid()
      reads this
    {
      value < limit
    }

    constructor (initial: nat, limit: nat)
      requires initial < limit
      ensures Valid() && value == initial && this.limit == limit
    {
      this.value := initial;
      this.limit := limit;
    }

    /** `LimitCounter::new(initial, limit)`: no counter when `initial >= limit`. */
    static method New(initial: nat, limit: nat) returns (r: Option<LimitCounter>)
      ensures r.Some? <==> initial < limit
      ensures r.Some? ==> fresh(r.value) && r.value.Valid()
      ensures r.Some? ==> r.value.value == initial && r.value.limit == limit
    {
      if initial < limit {
        var c := new LimitCounter(initial, limit);
        r := Some(c);
      } else {
        r := None;
      }
    }

    /** `Count::count`: advance by one, wrapping to zero at the limit. */
    method Count(rec: Board.Recorder)
      requires Valid()
      modifies this, rec
      ensures Valid()
      ensures value == (old(value) + 1) % limit
      ensures rec.trace == old(rec.trace) + [Board.Event.Count]
    {
      value := (value + 1) % limit;
      rec.trace := rec.trace + [Board.Event.Count];
    }

    /** `Reset::reset`: back to zero, whatever the value was. */
    method Reset(rec: Board.Recorder)
      requires Valid()
      modifies this, rec
      ensures Valid()
      ensures value == 0
      ensures rec.trace == old(rec.trace) + [Board.Event.Reset]
    {
      value := 0;
      rec.trace := rec.trace + [Board.Event.Reset];
    }

    /** `Show::get_counter`: the current value, always below the limit. */
    method Show(rec: Board.Recorder) returns (v: nat)
      requires Valid()
      modifies rec
      ensures v == value && v < limit
      ensures rec.trace == old(rec.trace) + [Board.Event.Show(v)]
    {
      v := value;
      rec.trace := rec.trace + [Board.Event.Show(v)];
    }
  }
}
