/** The health record of one upstream (internal/failover/state.go) and what it
    says about the history of outcomes that produced it. */
module Health {

  datatype State = Unknown | Healthy | Suspect | Down | Recovering {
    /** Out of service: skipped by a normal selection. */
    predicate Out() {
      Down? || Recovering?
    }
  }

  /** The state-carrying part of the source's Snapshot. */
  datatype Snapshot = Snapshot(state: State, failures: nat, successes: nat)

  const FRESH := Snapshot(Unknown, 0, 0)

  /** What a report says. `probe` is the argument of RecordSuccess: background
      probes pass true, client requests pass their emergency flag. */
  datatype Outcome = Failure | Success(probe: bool)

  function OnFailure(h: Snapshot, failThreshold: int): Snapshot {
    var failures := h.failures + 1;
    if h.state.Out() || failures >= failThreshold then Snapshot(Down, failures, 0)
    else Snapshot(Suspect, failures, 0)
  }

  function OnSuccess(h: Snapshot, probe: bool, recoverThreshold: int): Snapshot {
    if !h.state.Out() then
      Snapshot(Healthy, 0, h.successes + 1)
    else if !probe then
      h
    else if h.successes + 1 >= recoverThreshold then
      Snapshot(Healthy, 0, h.successes + 1)
    else
      Snapshot(Recovering, 0, h.successes + 1)
  }

  function Record(h: Snapshot, o: Outcome, failThreshold: int, recoverThreshold: int): Snapshot {
    match o
    case Failure => OnFailure(h, failThreshold)
    case Success(probe) => OnSuccess(h, probe, recoverThreshold)
  }

  // ----- Histories

  /** One report together with the thresholds of the manager that recorded it;
      a reload changes the thresholds in the middle of a history. */
  datatype Event = Event(outcome: Outcome, failThreshold: int, recoverThreshold: int)

  function Replay(history: seq<Event>): Snapshot {
    if history == [] then FRESH
    else
      var e := history[|history| - 1];
      Record(Replay(history[..|history| - 1]), e.outcome, e.failThreshold, e.recoverThreshold)
  }

  /** Number of failures at the end of the history. */
  ghost function FailureRun(k: seq<Event>): nat {
    if k == [] || !k[|k| - 1].outcome.Failure? then 0 else 1 + FailureRun(k[..|k| - 1])
  }

  /** Number of successes at the end of the history. */
  ghost function SuccessRun(k: seq<Event>): nat {
    if k == [] || k[|k| - 1].outcome.Failure? then 0 else 1 + SuccessRun(k[..|k| - 1])
  }

  /** The i-th event completes a failure run of the length then required. */
  ghost predicate TripsAt(k: seq<Event>, i: int)
    requires 0 < i <= |k|
  {
    k[i - 1].outcome.Failure? && FailureRun(k[..i]) >= k[i - 1].failThreshold
  }

  /** The i-th event completes a success run of the length then required. */
  ghost predicate ClearsAt(k: seq<Event>, i: int)
    requires 0 < i <= |k|
  {
    k[i - 1].outcome.Success? && SuccessRun(k[..i]) >= k[i - 1].recoverThreshold
  }

  ghost predicate LatchedSince(k: seq<Event>, i: int)
    requires 0 < i <= |k|
  {
    TripsAt(k, i) && forall j | i < j <= |k| :: !ClearsAt(k, j)
  }

  /** Some completed failure run is not followed by a completed success run. */
  ghost predicate Latched(k: seq<Event>) {
    exists i | 0 < i <= |k| :: LatchedSince(k, i)
  }

  /** The history without the passive successes that arrive while latched. */
  ghost function Kept(history: seq<Event>): seq<Event> {
    if history == [] then []
    else
      var k := Kept(history[..|history| - 1]);
      var e := history[|history| - 1];
      if e.outcome == Success(false) && Latched(k) then k else k + [e]
  }

  /** The state that the latch and the last kept outcome determine. */
  ghost function StateFor(k: seq<Event>): State {
    if k == [] then Unknown
    else if k[|k| - 1].outcome.Failure? then (if Latched(k) then Down else Suspect)
    else (if Latched(k) then Recovering else Healthy)
  }

  lemma {:induction false} LatchStep(k: seq<Event>, e: Event)
    ensures Latched(k + [e]) <==>
            if Latched(k) then !ClearsAt(k + [e], |k| + 1) else TripsAt(k + [e], |k| + 1)
  {
    var k' := k + [e];
    assert forall i | 0 < i <= |k| :: k'[..i] == k[..i];
    assert forall i | 0 < i <= |k| :: TripsAt(k', i) == TripsAt(k, i) && ClearsAt(k', i) == ClearsAt(k, i);
    if Latched(k) {
      var i :| 0 < i <= |k| && LatchedSince(k, i);
      if !ClearsAt(k', |k| + 1) {
        assert LatchedSince(k', i);
      }
    } else if TripsAt(k', |k| + 1) {
      assert LatchedSince(k', |k| + 1);
    }
    if Latched(k') {
      var i :| 0 < i <= |k'| && LatchedSince(k', i);
      if i <= |k| {
        assert LatchedSince(k, i);
      }
    }
  }

  /** History refinement. For every history, with thresholds that may change at
      any event, both counters are the trailing run lengths of the kept history
      and the state is the one fixed by the latch and the last kept outcome. */
  lemma {:induction false} HistoryRefinement(history: seq<Event>)
    ensures Replay(history) == Snapshot(StateFor(Kept(history)), FailureRun(Kept(history)), SuccessRun(Kept(history)))
  {
    if history != [] {
      var init, e := history[..|history| - 1], history[|history| - 1];
      HistoryRefinement(init);
      var k := Kept(init);
      LatchStep(k, e);
      assert (k + [e])[..|k|] == k;
      assert (k + [e])[..|k| + 1] == k + [e];
    }
  }

  /** Counted successes since the last failure of the raw history: background
      probes and answers to emergency selections, never other client answers. */
  ghost function CountedSinceFailure(history: seq<Event>): nat {
    if history == [] then 0
    else
      var init, o := history[..|history| - 1], history[|history| - 1].outcome;
      match o
      case Failure => 0
      case Success(probe) => CountedSinceFailure(init) + if probe then 1 else 0
  }

  /** While out of service the success counter counts exactly the counted
      successes since the last failure, and a Down record has none. */
  lemma {:induction false} OutCountsProbes(history: seq<Event>)
    ensures Replay(history).state.Out() ==> Replay(history).successes == CountedSinceFailure(history)
    ensures Replay(history).state.Down? ==> Replay(history).successes == 0
  {
    if history != [] {
      OutCountsProbes(history[..|history| - 1]);
    }
  }

  /** Recovery discipline: an out-of-service upstream returns exactly at a
      counted success that brings the counted successes since its last failure
      to the threshold in force, and it then becomes Healthy. */
  lemma {:induction false} RecoversExactlyAtThreshold(history: seq<Event>, e: Event)
    requires Replay(history).state.Out()
    ensures !Replay(history + [e]).state.Out() <==>
            && e.outcome == Success(true)
            && CountedSinceFailure(history + [e]) >= e.recoverThreshold
    ensures !Replay(history + [e]).state.Out() ==> Replay(history + [e]).state.Healthy?
  {
    OutCountsProbes(history);
    assert (history + [e])[..|history|] == history;
  }

  lemma {:induction false} FailureCounterCovers(history: seq<Event>, n: nat)
    requires n <= |history| && forall i | |history| - n <= i < |history| :: history[i].outcome.Failure?
    ensures Replay(history).failures >= n
  {
    if n > 0 {
      FailureCounterCovers(history[..|history| - 1], n - 1);
    }
  }

  /** A history that ends with as many failures as the threshold now in force
      is Down, whoever reported them and whatever came before. */
  lemma TrailingFailuresAreDown(history: seq<Event>, n: nat)
    requires 0 < n <= |history| && forall i | |history| - n <= i < |history| :: history[i].outcome.Failure?
    requires history[|history| - 1].failThreshold <= n
    ensures Replay(history).state.Down?
  {
    FailureCounterCovers(history[..|history| - 1], n - 1);
  }

  // ----- Runs of one kind of outcome

  function RecordAll(h: Snapshot, outcomes: seq<Outcome>, failThreshold: int, recoverThreshold: int): Snapshot
    decreases |outcomes|
  {
    if outcomes == [] then h
    else RecordAll(Record(h, outcomes[0], failThreshold, recoverThreshold), outcomes[1..], failThreshold,
                   recoverThreshold)
  }

  /** From any record at all (also one carried over by a reload), an unbroken
      series of failures keeps the upstream in service exactly while the run
      stays below the threshold, and takes it Down at the threshold. */
  lemma {:induction false} FailuresTakeOut(h: Snapshot, outcomes: seq<Outcome>, failThreshold: int,
                                           recoverThreshold: int)
    requires outcomes != [] && forall i | 0 <= i < |outcomes| :: outcomes[i] == Failure
    ensures RecordAll(h, outcomes, failThreshold, recoverThreshold)
         == Snapshot(if h.state.Out() || h.failures + |outcomes| >= failThreshold then Down else Suspect,
                     h.failures + |outcomes|, 0)
    decreases |outcomes|
  {
    var h' := Record(h, outcomes[0], failThreshold, recoverThreshold);
    if |outcomes| > 1 {
      FailuresTakeOut(h', outcomes[1..], failThreshold, recoverThreshold);
    }
  }

  /** A Down record needs exactly `recoverThreshold` counted successes in a row:
      fewer leave it Recovering, that many make it Healthy. */
  lemma {:induction false} ProbesRecover(h: Snapshot, outcomes: seq<Outcome>, failThreshold: int, recoverThreshold: int)
    requires h.state.Out() && outcomes != [] && forall i | 0 <= i < |outcomes| :: outcomes[i] == Success(true)
    requires h.successes + |outcomes| <= recoverThreshold
    ensures RecordAll(h, outcomes, failThreshold, recoverThreshold)
         == Snapshot(if h.successes + |outcomes| == recoverThreshold then Healthy else Recovering,
                     0, h.successes + |outcomes|)
    decreases |outcomes|
  {
    if |outcomes| > 1 {
      ProbesRecover(Record(h, outcomes[0], failThreshold, recoverThreshold), outcomes[1..], failThreshold,
                    recoverThreshold);
    }
  }
}
