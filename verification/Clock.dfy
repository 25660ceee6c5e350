/**
 The microsecond counter of a node. Real time is a natural number; the firmware only sees
 its low 32 bits, and measures a silence from two such readings.
 */
module Clock {

  const WRAP: nat := 0x1_0000_0000

  /** What `current_usec` returns at real time `t`. */
  function Counter(t: nat): nat {
    t % WRAP
  }

  /** The elapsed time that `is_slice_exceed` compares with the timeout. */
  function Reading(last: nat, now: nat): int
    requires last < WRAP && now < WRAP
  {
    if now < last then now + (WRAP - 1 - last) else now - last
  }

  /** The silence since real time `t0`, as the firmware measures it at real time `t1`. */
  function Measured(t0: nat, t1: nat): int {
    Reading(Counter(t0), Counter(t1))
  }

  /** The measure is the elapsed time modulo the counter range, one less when the counter wrapped. */
  lemma {:induction false} MeasuredIsElapsed(t0: nat, t1: nat)
    requires t0 <= t1
    ensures Measured(t0, t1) == (t1 - t0) % WRAP - (if Counter(t1) < Counter(t0) then 1 else 0)
  {
    var q0, q1 := t0 / WRAP, t1 / WRAP;
    var d := t1 - t0;
    assert d == WRAP * (q1 - q0) + (Counter(t1) - Counter(t0));
  }

  /** A silence is never overestimated, and within one counter range it is at most 1 us short. */
  lemma {:induction false} MeasuredBounds(t0: nat, t1: nat)
    requires t0 <= t1
    ensures Measured(t0, t1) <= t1 - t0
    ensures t1 - t0 < WRAP ==> t1 - t0 - 1 <= Measured(t0, t1)
  {
    MeasuredIsElapsed(t0, t1);
  }

  /** Within one counter range a longer silence never measures as a shorter one. */
  lemma {:induction false} MeasuredMonotone(t0: nat, t: nat, t1: nat)
    requires t0 <= t <= t1 < t0 + WRAP
    ensures Measured(t0, t) <= Measured(t0, t1)
  {
    MeasuredIsElapsed(t0, t);
    MeasuredIsElapsed(t0, t1);
  }

  /** A pause as long as the counter's range leaves no trace. */
  lemma {:induction false} WholeRangeIsInvisible(t0: nat)
    ensures Measured(t0, t0 + WRAP) == 0
  {
  }
}
