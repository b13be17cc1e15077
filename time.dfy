/**
 * The wall clock and `time.sleep`, as seen by the services.
 *
 * Time is counted in whole seconds (integer ticks). The clock is an object
 * outside the program: reading it may find that time has moved on, but never
 * backwards, and a sleep lasts at least as long as asked (possibly longer).
 */
module Time {

  const SecondsPerDay: int := 86400

  class Clock {
    var now: int

    constructor (start: int)
      ensures now == start
    {
      now := start;
    }

    /** `time.time()`: some amount of time may have passed since the last look. */
    method Read() returns (t: int)
      modifies this
      ensures old(now) <= now
      ensures t == now
    {
      var passed: int :| passed >= 0;
      now := now + passed;
      t := now;
    }

    /** `time.sleep(d)`: returns no earlier than `d` seconds later. */
    method Sleep(d: int)
      requires d >= 0
      modifies this
      ensures now >= old(now) + d
    {
      var overshoot: int :| overshoot >= 0;
      now := now + d + overshoot;
    }
  }
}
