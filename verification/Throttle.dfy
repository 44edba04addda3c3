/** The slot reservation of the shared rate limiter. */
module Throttle {
  import opened Wrappers

  /** The slot given to a call that reads the clock at `now`. */
  function Slot(nextStart: Option<real>, now: real): real {
    if nextStart.Some? && nextStart.value > now then nextStart.value else now
  }

  /** The slots reserved for the given clock readings, in reservation order. */
  function Slots(interval: real, clock: seq<real>): (slots: seq<real>)
    ensures |slots| == |clock|
  {
    if clock == [] then []
    else
      var before := Slots(interval, clock[..|clock| - 1]);
      before + [Slot(NextStart(interval, before), clock[|clock| - 1])]
  }

  /** The reservation state after the given slots. */
  function NextStart(interval: real, slots: seq<real>): Option<real> {
    if slots == [] then None else Some(slots[|slots| - 1] + interval)
  }

  class AsyncThrottle {
    const minInterval: real
    const concurrency: nat
    var nextStart: Option<real>
    ghost var clock: seq<real>

    ghost predicate Valid()
      reads this
    {
      concurrency >= 1 && nextStart == NextStart(minInterval, Slots(minInterval, clock))
    }

    constructor (minInterval: real, concurrency: int)
      ensures Valid() && clock == [] && this.minInterval == minInterval
      ensures this.concurrency == if concurrency < 1 then 1 else concurrency
    {
      this.minInterval := minInterval;
      this.concurrency := if concurrency < 1 then 1 else concurrency;
      nextStart := None;
      clock := [];
    }

    /** The synchronous part of run(): reserve a slot and say how long to sleep until it. */
    method Reserve(now: real) returns (start: real, wait: real)
      requires Valid()
      modifies this
      ensures Valid() && clock == old(clock) + [now]
      ensures Slots(minInterval, clock) == Slots(minInterval, old(clock)) + [start]
      ensures wait >= 0.0 && now + wait == start
    {
      start := now;
      if nextStart.Some? && nextStart.value > now {
        start := nextStart.value;
      }
      nextStart := Some(start + minInterval);
      wait := if start > now then start - now else 0.0;
      clock := clock + [now];
      assert clock[..|clock| - 1] == old(clock);
    }
  }

  /** A schedule that starts no call before its clock reading and spaces consecutive starts. */
  ghost predicate Respects(interval: real, clock: seq<real>, starts: seq<real>) {
    && |starts| == |clock|
    && (forall k :: 0 <= k < |clock| ==> clock[k] <= starts[k])
    && forall k :: 0 < k < |clock| ==> starts[k - 1] + interval <= starts[k]
  }

  /** The reserved slots respect the readings and the spacing, whatever the clock does, and no
      schedule that respects them starts any call earlier. */
  lemma {:induction false} SlotsAreEarliest(interval: real, clock: seq<real>)
    ensures Respects(interval, clock, Slots(interval, clock))
    ensures forall starts, k :: Respects(interval, clock, starts) && 0 <= k < |clock| ==>
      Slots(interval, clock)[k] <= starts[k]
  {
    if clock != [] {
      var n := |clock| - 1;
      SlotsAreEarliest(interval, clock[..n]);
      forall starts, k | Respects(interval, clock, starts) && 0 <= k < |clock|
        ensures Slots(interval, clock)[k] <= starts[k]
      {
        assert Respects(interval, clock[..n], starts[..n]);
        if n > 0 { assert Slots(interval, clock[..n])[n - 1] <= starts[..n][n - 1]; }
        if k < n { assert Slots(interval, clock[..n])[k] <= starts[..n][k]; }
      }
    }
  }

  /** Starts in a log are spaced when each is at least the interval after the one before. */
  ghost predicate Spaced(interval: real, starts: seq<real>) {
    forall k :: 0 < k < |starts| ==> starts[k - 1] + interval <= starts[k]
  }

  /** n * x by repeated addition. */
  function Times(n: nat, x: real): real {
    if n == 0 then 0.0 else Times(n - 1, x) + x
  }

  lemma {:induction false} TimesIsProduct(n: nat, x: real)
    ensures Times(n, x) == n as real * x
  {
    if n > 0 {
      TimesIsProduct(n - 1, x);
      assert n as real == (n - 1) as real + 1.0;
      Distribute((n - 1) as real, x);
    }
  }

  lemma Distribute(y: real, x: real)
    ensures (y + 1.0) * x == y * x + x
  {
  }

  lemma {:induction false} SpacedApart(interval: real, starts: seq<real>, i: nat, j: nat)
    requires Spaced(interval, starts) && i <= j < |starts|
    ensures starts[i] + Times(j - i, interval) <= starts[j]
    decreases j
  {
    if i < j { SpacedApart(interval, starts, i, j - 1); }
  }

  /** Each slot is pushed out exactly as far as some reading forces it. */
  lemma {:induction false} SlotIsForced(interval: real, clock: seq<real>, k: nat) returns (i: nat)
    requires k < |clock|
    ensures i <= k && Slots(interval, clock)[k] == clock[i] + Times(k - i, interval)
    decreases |clock|
  {
    var n := |clock| - 1;
    if k < n {
      i := SlotIsForced(interval, clock[..n], k);
    } else if n > 0 && Slots(interval, clock[..n])[n - 1] + interval > clock[n] {
      i := SlotIsForced(interval, clock[..n], n - 1);
    } else {
      i := k;
    }
  }

  // ----- The rate bound -----

  function Ceiling(x: real): int {
    -((-x).Floor)
  }

  predicate InWindow(start: real, from: real, length: real) {
    from <= start < from + length
  }

  /** How many of the starts lie in the half-open window [from, from + length). */
  function Count(starts: seq<real>, from: real, length: real): nat {
    if starts == [] then 0
    else
      Count(starts[..|starts| - 1], from, length)
      + if InWindow(starts[|starts| - 1], from, length) then 1 else 0
  }

  /** A window that holds n starts holds two that are at least n - 1 positions apart. */
  lemma {:induction false} Extremes(starts: seq<real>, from: real, length: real) returns (i: nat, j: nat)
    requires Count(starts, from, length) > 0
    ensures i <= j < |starts| && InWindow(starts[i], from, length) && InWindow(starts[j], from, length)
    ensures Count(starts, from, length) <= j - i + 1
  {
    var n := |starts| - 1;
    var before := starts[..n];
    i, j := n, n;
    if Count(before, from, length) > 0 {
      var i', j' := Extremes(before, from, length);
      i := i';
      j := if InWindow(starts[n], from, length) then n else j';
    }
  }

  lemma CeilingNonNegative(interval: real, length: real)
    requires interval > 0.0 && length >= 0.0
    ensures Ceiling(length / interval) >= 0
  {
    var q := length / interval;
    assert q * interval == length;
    if q < 0.0 { NegativeProduct(q, interval); }
  }

  lemma NegativeProduct(x: real, y: real)
    requires x < 0.0 && y > 0.0
    ensures x * y < 0.0
  {
  }

  lemma BelowCeiling(n: nat, interval: real, length: real)
    requires interval > 0.0 && Times(n, interval) < length
    ensures n + 1 <= Ceiling(length / interval)
  {
    var q := length / interval;
    assert q * interval == length;
    TimesIsProduct(n, interval);
    if q <= n as real { Monotone(q, n as real, interval); }
  }

  lemma Monotone(x: real, y: real, z: real)
    requires x <= y && z > 0.0
    ensures x * z <= y * z
  {
  }

  /** Any half-open window of the given length holds at most ceil(length / interval) starts. */
  lemma WindowBound(interval: real, starts: seq<real>, from: real, length: real)
    requires interval > 0.0 && length >= 0.0 && Spaced(interval, starts)
    ensures Count(starts, from, length) <= Ceiling(length / interval)
  {
    if Count(starts, from, length) == 0 {
      CeilingNonNegative(interval, length);
    } else {
      var i, j := Extremes(starts, from, length);
      SpacedApart(interval, starts, i, j);
      BelowCeiling(j - i, interval, length);
    }
  }
}
