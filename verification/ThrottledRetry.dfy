/** Any number of retried calls sharing one throttle: each attempt takes a permit and a slot,
    sends, gives the permit back, and backs off outside the throttle before the next attempt. */
module ThrottledRetry {
  import opened Wrappers
  import opened Throttle
  import opened Retry

  datatype Config = Config(
    minInterval: real, concurrency: nat, maxRetries: int, backoffBase: real, maxDelay: real)

  /** Where a call stands. */
  datatype Phase =
    | Queued
    | Sending(slot: real)
    | BackingOff(delay: real)
    | Ended(outcome: Outcome)

  /** A call with the outcomes of the attempts it has finished, oldest first. */
  datatype Call = Call(phase: Phase, finished: seq<Outcome>)

  /** A reserved slot: the call it is for, the clock reading it was made at, and its start. */
  datatype Reservation = Reservation(call: nat, now: real, start: real)

  /** The throttle's reservation state, every call, and the log of reservations. */
  datatype World = World(nextStart: Option<real>, calls: seq<Call>, log: seq<Reservation>)

  datatype Action =
    | Begin
    | Acquire(call: nat, now: real)
    | Complete(call: nat, outcome: Outcome)
    | Wake(call: nat)

  /** The calls that hold a permit: sleeping until their slot or in flight. */
  function InFlight(calls: seq<Call>): nat {
    if calls == [] then 0
    else InFlight(calls[..|calls| - 1]) + if calls[|calls| - 1].phase.Sending? then 1 else 0
  }

  /** What the retry loop does with the outcome of one attempt. */
  function AfterAttempt(c: Config, attempt: nat, outcome: Outcome): Phase {
    if outcome.Value? || !Retryable(outcome.failure) || attempt >= c.maxRetries then Ended(outcome)
    else BackingOff(Delay(outcome.failure, attempt, c.backoffBase, c.maxDelay))
  }

  /** An action that is not possible leaves the world alone. */
  function Next(c: Config, w: World, a: Action): World {
    match a
    case Begin => w.(calls := w.calls + [Call(Queued, [])])
    case Acquire(i, now) =>
      if i < |w.calls| && w.calls[i].phase.Queued? && InFlight(w.calls) < c.concurrency then
        var start := Slot(w.nextStart, now);
        World(
          Some(start + c.minInterval),
          w.calls[i := w.calls[i].(phase := Sending(start))],
          w.log + [Reservation(i, now, start)])
      else w
    case Complete(i, outcome) =>
      if i < |w.calls| && w.calls[i].phase.Sending? then
        var call := w.calls[i];
        w.(calls := w.calls[i := Call(AfterAttempt(c, |call.finished|, outcome), call.finished + [outcome])])
      else w
    case Wake(i) =>
      if i < |w.calls| && w.calls[i].phase.BackingOff? then
        w.(calls := w.calls[i := w.calls[i].(phase := Queued)])
      else w
  }

  function Reach(c: Config, actions: seq<Action>): World {
    if actions == [] then World(None, [], [])
    else Next(c, Reach(c, actions[..|actions| - 1]), actions[|actions| - 1])
  }

  function Starts(log: seq<Reservation>): (starts: seq<real>)
    ensures |starts| == |log|
    ensures forall k :: 0 <= k < |log| ==> starts[k] == log[k].start
  {
    seq(|log|, k requires 0 <= k < |log| => log[k].start)
  }

  /** The clock readings, in reservation order. */
  function Readings(log: seq<Reservation>): (readings: seq<real>)
    ensures |readings| == |log|
    ensures forall k :: 0 <= k < |log| ==> readings[k] == log[k].now
  {
    seq(|log|, k requires 0 <= k < |log| => log[k].now)
  }

  /** How many slots were reserved for a call. */
  function SlotsOf(log: seq<Reservation>, i: nat): nat {
    if log == [] then 0
    else SlotsOf(log[..|log| - 1], i) + if log[|log| - 1].call == i then 1 else 0
  }

  // ----- Invariant -----

  function Retries(c: Config): nat {
    if c.maxRetries > 0 then c.maxRetries else 0
  }

  /** The first n attempts were all retried: each was retryable and had retries left. */
  ghost predicate Retried(c: Config, finished: seq<Outcome>, n: int) {
    forall k :: 0 <= k < n && k < |finished| ==> MayRetry(finished[k]) && k < c.maxRetries
  }

  /** Every finished attempt of a call was retried, except the last of a call that has ended with
      it. */
  ghost predicate CallInv(c: Config, call: Call) {
    var n := |call.finished|;
    match call.phase
    case Ended(outcome) =>
      && n > 0 && outcome == call.finished[n - 1] && Retried(c, call.finished, n - 1)
      && (MayRetry(outcome) ==> n > c.maxRetries)
    case BackingOff(delay) =>
      && n > 0 && Retried(c, call.finished, n)
      && delay == Delay(call.finished[n - 1].failure, n - 1, c.backoffBase, c.maxDelay)
    case _ => Retried(c, call.finished, n)
  }

  /** A call has one slot for every attempt it finished and one for the attempt it is making. */
  function Attempts(call: Call): nat {
    |call.finished| + if call.phase.Sending? then 1 else 0
  }

  ghost predicate CallsInv(c: Config, calls: seq<Call>) {
    forall i :: 0 <= i < |calls| ==> CallInv(c, calls[i])
  }

  ghost predicate SlotsMatch(calls: seq<Call>, log: seq<Reservation>) {
    && (forall i :: 0 <= i < |calls| ==> SlotsOf(log, i) == Attempts(calls[i]))
    && (forall k :: 0 <= k < |log| ==> log[k].call < |calls|)
  }

  /** The log is the throttle's schedule of the clock readings in it. */
  ghost predicate Scheduled(c: Config, nextStart: Option<real>, log: seq<Reservation>) {
    && Starts(log) == Slots(c.minInterval, Readings(log))
    && nextStart == NextStart(c.minInterval, Starts(log))
  }

  ghost predicate Inv(c: Config, w: World) {
    && InFlight(w.calls) <= c.concurrency
    && Scheduled(c, w.nextStart, w.log)
    && CallsInv(c, w.calls)
    && SlotsMatch(w.calls, w.log)
  }

  lemma {:induction false} InFlightUpdate(calls: seq<Call>, i: nat, call: Call)
    requires i < |calls|
    ensures InFlight(calls[i := call]) ==
      InFlight(calls) - (if calls[i].phase.Sending? then 1 else 0) + (if call.phase.Sending? then 1 else 0)
  {
    var n := |calls| - 1;
    if i < n {
      InFlightUpdate(calls[..n], i, call);
      assert calls[i := call][..n] == calls[..n][i := call];
    } else {
      assert calls[i := call][..n] == calls[..n];
    }
  }

  lemma {:induction false} NoSlotsFor(log: seq<Reservation>, i: nat)
    requires forall k :: 0 <= k < |log| ==> log[k].call != i
    ensures SlotsOf(log, i) == 0
  {
    if log != [] { NoSlotsFor(log[..|log| - 1], i); }
  }

  lemma BeginFlies(calls: seq<Call>)
    ensures InFlight(calls + [Call(Queued, [])]) == InFlight(calls)
  {
    assert (calls + [Call(Queued, [])])[..|calls|] == calls;
  }

  lemma BeginMatches(calls: seq<Call>, log: seq<Reservation>)
    requires SlotsMatch(calls, log)
    ensures SlotsMatch(calls + [Call(Queued, [])], log)
  {
    NoSlotsFor(log, |calls|);
  }

  lemma BeginKeepsInv(c: Config, w: World)
    requires Inv(c, w)
    ensures Inv(c, Next(c, w, Begin))
  {
    BeginFlies(w.calls);
    BeginMatches(w.calls, w.log);
    AddKeepsCalls(c, w.calls);
  }

  lemma AddKeepsCalls(c: Config, calls: seq<Call>)
    requires CallsInv(c, calls)
    ensures CallsInv(c, calls + [Call(Queued, [])])
  {
  }

  lemma UpdateKeepsCalls(c: Config, calls: seq<Call>, i: nat, call: Call)
    requires CallsInv(c, calls) && i < |calls| && CallInv(c, call)
    ensures CallsInv(c, calls[i := call])
  {
  }

  /** A call that changes without a reservation keeps its number of attempts. */
  lemma UpdateMatches(calls: seq<Call>, log: seq<Reservation>, i: nat, call: Call)
    requires SlotsMatch(calls, log) && i < |calls| && Attempts(call) == Attempts(calls[i])
    ensures SlotsMatch(calls[i := call], log)
  {
  }

  lemma AcquireSchedules(c: Config, nextStart: Option<real>, log: seq<Reservation>, i: nat, now: real)
    requires Scheduled(c, nextStart, log)
    ensures
      var start := Slot(nextStart, now);
      Scheduled(c, Some(start + c.minInterval), log + [Reservation(i, now, start)])
  {
    var start := Slot(nextStart, now);
    var log' := log + [Reservation(i, now, start)];
    assert Starts(log') == Starts(log) + [start];
    assert Readings(log') == Readings(log) + [now];
    assert Readings(log')[..|log|] == Readings(log);
  }

  lemma AcquireCounts(log: seq<Reservation>, r: Reservation, k: nat)
    ensures SlotsOf(log + [r], k) == SlotsOf(log, k) + if k == r.call then 1 else 0
  {
    assert (log + [r])[..|log|] == log;
  }

  lemma AcquireMatches(calls: seq<Call>, log: seq<Reservation>, r: Reservation, call: Call)
    requires SlotsMatch(calls, log) && r.call < |calls| && Attempts(call) == Attempts(calls[r.call]) + 1
    ensures SlotsMatch(calls[r.call := call], log + [r])
  {
    forall k | 0 <= k < |calls| ensures SlotsOf(log + [r], k) == SlotsOf(log, k) + if k == r.call then 1 else 0 {
      AcquireCounts(log, r, k);
    }
  }

  lemma AcquireKeepsInv(c: Config, w: World, i: nat, now: real)
    requires Inv(c, w) && i < |w.calls| && w.calls[i].phase.Queued? && InFlight(w.calls) < c.concurrency
    ensures Inv(c, Next(c, w, Acquire(i, now)))
  {
    var start := Slot(w.nextStart, now);
    var call := w.calls[i].(phase := Sending(start));
    AcquireSchedules(c, w.nextStart, w.log, i, now);
    InFlightUpdate(w.calls, i, call);
    AcquireMatches(w.calls, w.log, Reservation(i, now, start), call);
    UpdateKeepsCalls(c, w.calls, i, call);
  }

  /** Finishing an attempt either ends the call or makes it back off. */
  lemma FinishKeepsCall(c: Config, call: Call, outcome: Outcome)
    requires CallInv(c, call) && call.phase.Sending?
    ensures CallInv(c, Call(AfterAttempt(c, |call.finished|, outcome), call.finished + [outcome]))
  {
    var finished := call.finished + [outcome];
    forall k | 0 <= k < |call.finished| ensures MayRetry(finished[k]) && k < c.maxRetries {
      assert finished[k] == call.finished[k];
    }
    assert Retried(c, finished, |call.finished|);
  }

  lemma CompleteKeepsInv(c: Config, w: World, i: nat, outcome: Outcome)
    requires Inv(c, w) && i < |w.calls| && w.calls[i].phase.Sending?
    ensures Inv(c, Next(c, w, Complete(i, outcome)))
  {
    var call := w.calls[i];
    var call' := Call(AfterAttempt(c, |call.finished|, outcome), call.finished + [outcome]);
    InFlightUpdate(w.calls, i, call');
    FinishKeepsCall(c, call, outcome);
    UpdateKeepsCalls(c, w.calls, i, call');
    UpdateMatches(w.calls, w.log, i, call');
  }

  lemma WakeKeepsInv(c: Config, w: World, i: nat)
    requires Inv(c, w) && i < |w.calls| && w.calls[i].phase.BackingOff?
    ensures Inv(c, Next(c, w, Wake(i)))
  {
    var call := w.calls[i].(phase := Queued);
    InFlightUpdate(w.calls, i, call);
    assert CallInv(c, w.calls[i]);
    UpdateKeepsCalls(c, w.calls, i, call);
    UpdateMatches(w.calls, w.log, i, call);
  }

  lemma NextKeepsInv(c: Config, w: World, a: Action)
    requires Inv(c, w)
    ensures Inv(c, Next(c, w, a))
  {
    match a {
      case Begin => BeginKeepsInv(c, w);
      case Acquire(i, now) =>
        if i < |w.calls| && w.calls[i].phase.Queued? && InFlight(w.calls) < c.concurrency {
          AcquireKeepsInv(c, w, i, now);
        }
      case Complete(i, outcome) =>
        if i < |w.calls| && w.calls[i].phase.Sending? { CompleteKeepsInv(c, w, i, outcome); }
      case Wake(i) =>
        if i < |w.calls| && w.calls[i].phase.BackingOff? { WakeKeepsInv(c, w, i); }
    }
  }

  lemma {:induction false} ReachableInv(c: Config, actions: seq<Action>)
    ensures Inv(c, Reach(c, actions))
  {
    if actions != [] {
      ReachableInv(c, actions[..|actions| - 1]);
      NextKeepsInv(c, Reach(c, actions[..|actions| - 1]), actions[|actions| - 1]);
    }
  }

  // ----- The rate -----

  /** The calls that hold a permit, by position. */
  ghost function Permits(calls: seq<Call>): set<int> {
    set i | 0 <= i < |calls| && calls[i].phase.Sending?
  }

  lemma {:induction false} InFlightCounts(calls: seq<Call>)
    ensures InFlight(calls) == |Permits(calls)|
  {
    if calls != [] {
      var n := |calls| - 1;
      InFlightCounts(calls[..n]);
      assert Permits(calls) == Permits(calls[..n]) + if calls[n].phase.Sending? then {n} else {};
    }
  }

  /** Whatever the schedule, the clock and the answers: the sends of all calls together, retries
      included, start when the throttle's own schedule of the clock readings says, and no schedule
      that respects those readings and the spacing starts any of them earlier. */
  lemma SendsAreEarliest(c: Config, actions: seq<Action>)
    ensures
      var log := Reach(c, actions).log;
      && Starts(log) == Slots(c.minInterval, Readings(log))
      && Respects(c.minInterval, Readings(log), Starts(log))
      && forall starts, k :: Respects(c.minInterval, Readings(log), starts) && 0 <= k < |log| ==>
           Starts(log)[k] <= starts[k]
  {
    ReachableInv(c, actions);
    SlotsAreEarliest(c.minInterval, Readings(Reach(c, actions).log));
  }

  /** Whatever the schedule, the clock, the answers and the number of calls: the calls holding a
      permit never exceed the concurrency limit, and any half-open window of the given length holds
      at most ceil(length / interval) send slots, retries included. */
  lemma RateAndConcurrencyBound(c: Config, actions: seq<Action>, from: real, length: real)
    requires c.minInterval > 0.0 && length >= 0.0
    ensures |Permits(Reach(c, actions).calls)| <= c.concurrency
    ensures Count(Starts(Reach(c, actions).log), from, length) <= Ceiling(length / c.minInterval)
  {
    ReachableInv(c, actions);
    InFlightCounts(Reach(c, actions).calls);
    SendsAreEarliest(c, actions);
    WindowBound(c.minInterval, Starts(Reach(c, actions).log), from, length);
  }

  // ----- The attempts of one call -----

  /** The provider answers a call's attempts with these outcomes, as far as they are finished. */
  ghost predicate Answers(outcomes: nat -> Outcome, call: Call) {
    forall k: nat :: k < |call.finished| ==> outcomes(k) == call.finished[k]
  }

  /** In every schedule a call that has ended did so at the attempt the retry loop stops at, with the
      outcome of that attempt, whatever the other calls did; a call that has not ended has not
      reached that attempt. */
  lemma CallsFollowTheLoop(c: Config, actions: seq<Action>, i: nat, outcomes: nat -> Outcome)
    requires i < |Reach(c, actions).calls| && Answers(outcomes, Reach(c, actions).calls[i])
    ensures
      var call := Reach(c, actions).calls[i];
      var n := |call.finished|;
      && (call.phase.Ended? ==> n > 0 && StopsAt(outcomes, c.maxRetries, n - 1) && call.phase.outcome == outcomes(n - 1))
      && (!call.phase.Ended? ==> forall k: nat :: k < n ==> !StopsAt(outcomes, c.maxRetries, k))
  {
    ReachableInv(c, actions);
    var call := Reach(c, actions).calls[i];
    assert CallInv(c, call);
    if call.phase.Ended? { EndedStops(c, call, outcomes); } else { OpenGoesOn(c, call, outcomes); }
  }

  lemma EndedStops(c: Config, call: Call, outcomes: nat -> Outcome)
    requires CallInv(c, call) && call.phase.Ended? && Answers(outcomes, call)
    ensures call.finished != []
    ensures
      var n := |call.finished| - 1;
      StopsAt(outcomes, c.maxRetries, n) && call.phase.outcome == outcomes(n)
  {
    var n := |call.finished| - 1;
    forall k: nat | k < n ensures MayRetry(outcomes(k)) && k < c.maxRetries {
      assert outcomes(k) == call.finished[k] && MayRetry(call.finished[k]);
    }
    assert outcomes(n) == call.finished[n];
  }

  lemma OpenGoesOn(c: Config, call: Call, outcomes: nat -> Outcome)
    requires CallInv(c, call) && !call.phase.Ended? && Answers(outcomes, call)
    ensures forall k: nat :: k < |call.finished| ==> !StopsAt(outcomes, c.maxRetries, k)
  {
    forall k: nat | k < |call.finished| ensures !StopsAt(outcomes, c.maxRetries, k) {
      assert outcomes(k) == call.finished[k] && MayRetry(call.finished[k]) && k < c.maxRetries;
    }
  }

  /** A call reserves one slot for each attempt, at most max_retries + 1 of them, and every attempt
      followed by another slot for the call was one that the loop may retry. */
  lemma SlotsOfCall(c: Config, actions: seq<Action>, i: nat)
    requires i < |Reach(c, actions).calls|
    ensures
      var w := Reach(c, actions);
      var call := w.calls[i];
      && SlotsOf(w.log, i) == Attempts(call) <= Retries(c) + 1
      && forall k :: 0 <= k < |call.finished| && k + 1 < Attempts(call) ==> MayRetry(call.finished[k]) && k < c.maxRetries
  {
    var w := Reach(c, actions);
    ReachableInv(c, actions);
    assert SlotsOf(w.log, i) == Attempts(w.calls[i]);
    RetriedAttempts(c, w.calls[i]);
  }

  lemma RetriedAttempts(c: Config, call: Call)
    requires CallInv(c, call)
    ensures Attempts(call) <= Retries(c) + 1
    ensures forall k :: 0 <= k < |call.finished| && k + 1 < Attempts(call) ==> MayRetry(call.finished[k]) && k < c.maxRetries
  {
    var n := |call.finished|;
    var last := if call.phase.Ended? then n - 2 else n - 1;
    if last >= 0 { assert MayRetry(call.finished[last]) && last < c.maxRetries; }
  }

  // ----- Requests sent twice -----

  /** Attempt k of the call may have been sent and was followed by another slot for the call. */
  ghost predicate Resent(w: World, i: nat, k: nat) {
    && i < |w.calls| && k < |w.calls[i].finished| && k + 1 < SlotsOf(w.log, i)
    && MayHaveBeenSent(w.calls[i].finished[k])
  }

  lemma MaskedIsWhatIsResent(o: Outcome)
    ensures MayRetry(o) && MayHaveBeenSent(o) <==> Masked(o)
  {
    if o.Raised? { RetryableIff(o.failure); }
  }

  /** In every schedule, an attempt followed by another slot may have been sent exactly when it failed
      in a way that is neither pre-send nor a refusal but has a pre-send cause. */
  lemma ResentIffMasked(c: Config, actions: seq<Action>, i: nat, k: nat)
    requires i < |Reach(c, actions).calls| && k < |Reach(c, actions).calls[i].finished|
    requires k + 1 < SlotsOf(Reach(c, actions).log, i)
    ensures Resent(Reach(c, actions), i, k) <==> Masked(Reach(c, actions).calls[i].finished[k])
  {
    SlotsOfCall(c, actions, i);
    MaskedIsWhatIsResent(Reach(c, actions).calls[i].finished[k]);
  }

  /** A call that has ended repeated a request that may have been sent exactly when one of its
      attempts before the last permitted one ended in a masked failure. */
  lemma EndedCallResentIff(c: Config, actions: seq<Action>, i: nat)
    requires i < |Reach(c, actions).calls| && Reach(c, actions).calls[i].phase.Ended?
    ensures
      var w := Reach(c, actions);
      (exists k: nat :: Resent(w, i, k)) <==>
      (exists k: nat :: k < |w.calls[i].finished| && k < c.maxRetries && Masked(w.calls[i].finished[k]))
  {
    var w := Reach(c, actions);
    var call := w.calls[i];
    SlotsOfCall(c, actions, i);
    ReachableInv(c, actions);
    assert CallInv(c, call);
    if k: nat :| Resent(w, i, k) {
      ResentIffMasked(c, actions, i, k);
      assert k < c.maxRetries && Masked(call.finished[k]);
    }
    if k: nat :| k < |call.finished| && k < c.maxRetries && Masked(call.finished[k]) {
      MaskedIsWhatIsResent(call.finished[k]);
      assert k + 1 < |call.finished|;
      assert Resent(w, i, k);
    }
  }

  /** The schedule delivers this outcome. */
  ghost predicate Delivers(actions: seq<Action>, o: Outcome) {
    exists j :: 0 <= j < |actions| && actions[j].Complete? && actions[j].outcome == o
  }

  lemma DeliversExtends(actions: seq<Action>, o: Outcome)
    requires actions != [] && Delivers(actions[..|actions| - 1], o)
    ensures Delivers(actions, o)
  {
    var j :| 0 <= j < |actions| - 1 && actions[..|actions| - 1][j].Complete? && actions[..|actions| - 1][j].outcome == o;
    assert actions[j] == actions[..|actions| - 1][j];
  }

  lemma FinishedStep(c: Config, w: World, a: Action, i: nat, k: nat)
    requires i < |Next(c, w, a).calls| && k < |Next(c, w, a).calls[i].finished|
    ensures (i < |w.calls| && k < |w.calls[i].finished| && Next(c, w, a).calls[i].finished[k] == w.calls[i].finished[k])
      || (a.Complete? && a.outcome == Next(c, w, a).calls[i].finished[k])
  {
  }

  /** Outcomes of finished attempts were delivered by the schedule. */
  lemma {:induction false} FinishedWereDelivered(c: Config, actions: seq<Action>, i: nat, k: nat)
    requires i < |Reach(c, actions).calls| && k < |Reach(c, actions).calls[i].finished|
    ensures Delivers(actions, Reach(c, actions).calls[i].finished[k])
  {
    var n := |actions| - 1;
    var o := Reach(c, actions).calls[i].finished[k];
    FinishedStep(c, Reach(c, actions[..n]), actions[n], i, k);
    if actions[n].Complete? && actions[n].outcome == o {
      assert Delivers(actions, o);
    } else {
      FinishedWereDelivered(c, actions[..n], i, k);
      DeliversExtends(actions, o);
    }
  }

  /** Nothing that may have been sent is ever repeated, in any schedule, as long as no masked failure
      is delivered. */
  lemma NothingResentWithoutMasking(c: Config, actions: seq<Action>, i: nat, k: nat)
    requires forall o :: Delivers(actions, o) ==> !Masked(o)
    ensures !Resent(Reach(c, actions), i, k)
  {
    if Resent(Reach(c, actions), i, k) {
      FinishedWereDelivered(c, actions, i, k);
      ResentIffMasked(c, actions, i, k);
    }
  }

  lemma ReachSnoc(c: Config, actions: seq<Action>, a: Action)
    ensures Reach(c, actions + [a]) == Next(c, Reach(c, actions), a)
  {
    assert (actions + [a])[..|actions|] == actions;
  }

  /** The world holds a single call that stands like this. */
  ghost predicate Single(w: World, call: Call) {
    w.calls == [call]
  }

  lemma SingleInFlight(w: World, call: Call)
    requires Single(w, call) && !call.phase.Sending?
    ensures InFlight(w.calls) == 0
  {
    assert w.calls[..0] == [];
  }

  lemma SingleAcquires(c: Config, actions: seq<Action>, finished: seq<Outcome>, now: real) returns (actions': seq<Action>)
    requires c.concurrency >= 1 && Single(Reach(c, actions), Call(Queued, finished))
    ensures
      var w, w' := Reach(c, actions), Reach(c, actions');
      && Single(w', Call(Sending(Slot(w.nextStart, now)), finished))
      && SlotsOf(w'.log, 0) == SlotsOf(w.log, 0) + 1
  {
    var w := Reach(c, actions);
    SingleInFlight(w, Call(Queued, finished));
    actions' := actions + [Acquire(0, now)];
    ReachSnoc(c, actions, Acquire(0, now));
    AcquireCounts(w.log, Reservation(0, now, Slot(w.nextStart, now)), 0);
  }

  lemma SingleBegins(c: Config) returns (actions: seq<Action>)
    ensures Single(Reach(c, actions), Call(Queued, [])) && SlotsOf(Reach(c, actions).log, 0) == 0
  {
    actions := [] + [Begin];
    ReachSnoc(c, [], Begin);
  }

  lemma SingleCompletes(c: Config, actions: seq<Action>, slot: real, o: Outcome) returns (actions': seq<Action>)
    requires Single(Reach(c, actions), Call(Sending(slot), []))
    ensures
      var w, w' := Reach(c, actions), Reach(c, actions');
      Single(w', Call(AfterAttempt(c, 0, o), [o])) && w'.log == w.log
  {
    actions' := actions + [Complete(0, o)];
    ReachSnoc(c, actions, Complete(0, o));
    assert [] + [o] == [o];
  }

  lemma SingleWakes(c: Config, actions: seq<Action>, delay: real, finished: seq<Outcome>) returns (actions': seq<Action>)
    requires Single(Reach(c, actions), Call(BackingOff(delay), finished))
    ensures
      var w, w' := Reach(c, actions), Reach(c, actions');
      Single(w', Call(Queued, finished)) && w'.log == w.log
  {
    actions' := actions + [Wake(0)];
    ReachSnoc(c, actions, Wake(0));
  }

  /** Masking is a real danger: with one retry and one permit, every masked failure is resent by some
      schedule. So an outcome can be resent exactly when it is masked. */
  lemma MaskedFailureIsResent(c: Config, o: Outcome, now: real, later: real) returns (actions: seq<Action>)
    requires c.concurrency >= 1 && c.maxRetries >= 1 && Masked(o)
    ensures Resent(Reach(c, actions), 0, 0) && Reach(c, actions).calls[0].finished == [o]
  {
    MaskedIsWhatIsResent(o);
    var begun := SingleBegins(c);
    var sending := SingleAcquires(c, begun, [], now);
    var failed := SingleCompletes(c, sending, Reach(c, sending).calls[0].phase.slot, o);
    var woken := SingleWakes(c, failed, AfterAttempt(c, 0, o).delay, [o]);
    actions := SingleAcquires(c, woken, [o], later);
  }

  /** For example a server error raised while handling a connection error is sent a second time. */
  lemma ServerErrorIsResent(c: Config, now: real, later: real) returns (actions: seq<Action>)
    requires c.concurrency >= 1 && c.maxRetries >= 1
    ensures
      var w := Reach(c, actions);
      && Resent(w, 0, 0)
      && w.calls[0].finished == [Raised(Failure(HttpStatus(500), Some(ConnectError), None, None))]
  {
    actions := MaskedFailureIsResent(c, Raised(Failure(HttpStatus(500), Some(ConnectError), None, None)), now, later);
  }

  // ----- Ended calls -----

  lemma StepKeepsEnded(c: Config, w: World, a: Action, i: nat)
    requires i < |w.calls| && w.calls[i].phase.Ended?
    ensures i < |Next(c, w, a).calls| && Next(c, w, a).calls[i] == w.calls[i]
    ensures SlotsOf(Next(c, w, a).log, i) == SlotsOf(w.log, i)
  {
    if a.Acquire? {
      var w' := Next(c, w, a);
      if w'.log != w.log { assert w'.log[..|w.log|] == w.log; }
    }
  }

  /** Between any two moments of any schedule, a call that has ended does not change and reserves no
      further slot. */
  lemma {:induction false} EndedIsFinal(c: Config, actions: seq<Action>, m: nat, n: nat, i: nat)
    requires m <= n <= |actions|
    requires i < |Reach(c, actions[..m]).calls| && Reach(c, actions[..m]).calls[i].phase.Ended?
    ensures
      var w, w' := Reach(c, actions[..m]), Reach(c, actions[..n]);
      i < |w'.calls| && w'.calls[i] == w.calls[i] && SlotsOf(w'.log, i) == SlotsOf(w.log, i)
    decreases n
  {
    if m < n {
      EndedIsFinal(c, actions, m, n - 1, i);
      assert actions[..n][..n - 1] == actions[..n - 1];
      StepKeepsEnded(c, Reach(c, actions[..n - 1]), actions[n - 1], i);
    }
  }
}
