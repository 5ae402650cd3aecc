/** The wall clock: each reading is some instant not before the last one. */
module Clocks {
  class Clock {
    var now: int

    method Now() returns (t: int)
      modifies this
      ensures old(now) <= t == now
    {
      t :| now <= t;
      now := t;
    }
  }
}
