/** How long a recovered upstream stays out of service: the health record and
    the probe schedule of one upstream together, over a timeline of scheduler
    visits in which every probe is answered and no client outcome interferes. */
module Failback {
  import opened Wrappers
  import opened Health
  import opened Config
  import opened Scheduling
  import Failover

  /** One time the scheduler looks at the upstream: when it asks whether a probe
      is due, and when the probe ends if one is made. */
  datatype Visit = Visit(at: int, done: int)

  /** `ended` is the end of the latest visit, `probes` the number made so far. */
  datatype Track = Track(health: Snapshot, slot: Slot, probes: nat, ended: int)

  function VisitOnce(t: Track, v: Visit, interval: int, failThreshold: int, recoverThreshold: int): Track {
    if Claimable(t.slot, v.at) then
      Track(Record(t.health, Success(true), failThreshold, recoverThreshold),
            Rescheduled(t.slot, v.done, true, false, interval, 0.0), t.probes + 1, v.done)
    else t.(ended := v.at)
  }

  /** A visit does to record and slot what a round of the scheduler does when the
      probe is answered. */
  lemma VisitIsARound(t: Track, v: Visit, p: ProbeRun, e: Failover.Entry, e': Failover.Entry, s': Slot,
                      interval: int, failThreshold: int, recoverThreshold: int)
    requires e.health == t.health && p.asked == v.at && p.done == v.done && p.Good()
    requires Settled(e, e', t.slot, s', p, interval, failThreshold, recoverThreshold)
    ensures var t' := VisitOnce(t, v, interval, failThreshold, recoverThreshold);
            t'.health == e'.health && t'.slot == s'
  {
  }

  function After(t: Track, visits: seq<Visit>, interval: int, failThreshold: int, recoverThreshold: int): Track
    decreases |visits|
  {
    if visits == [] then t
    else After(VisitOnce(t, visits[0], interval, failThreshold, recoverThreshold), visits[1..], interval, failThreshold,
               recoverThreshold)
  }

  /** Visits follow one another, and each ends at most `delay` after the one
      before: the next tick, the wait for the round, and the probe itself. */
  ghost predicate Spaced(t: Track, visits: seq<Visit>, delay: int, interval: int, failThreshold: int,
                         recoverThreshold: int)
    decreases |visits|
  {
    visits == [] ||
    (&& t.ended <= visits[0].at <= visits[0].done <= t.ended + delay
     && Spaced(VisitOnce(t, visits[0], interval, failThreshold, recoverThreshold), visits[1..], delay, interval,
               failThreshold, recoverThreshold))
  }

  /** The longest time `need` answered probes can take once the first is due. */
  function Longest(need: nat, delay: int, interval: int): int {
    if need <= 1 then delay else interval + delay + Longest(need - 1, delay, interval)
  }

  lemma {:induction false} LongestIs(need: nat, delay: int, interval: int)
    requires need >= 1
    ensures Longest(need, delay, interval) == (need - 1) * interval + need * delay
  {
    if need > 1 {
      LongestIs(need - 1, delay, interval);
      assert (need - 1) * interval == (need - 2) * interval + interval;
      assert need * delay == (need - 1) * delay + delay;
    }
  }

  lemma {:induction false} InServiceStays(t: Track, visits: seq<Visit>, interval: int, failThreshold: int,
                                          recoverThreshold: int)
    requires t.health.state.Healthy?
    ensures var t' := After(t, visits, interval, failThreshold, recoverThreshold);
            t'.health.state.Healthy? && t'.probes >= t.probes
    decreases |visits|
  {
    if visits != [] {
      InServiceStays(VisitOnce(t, visits[0], interval, failThreshold, recoverThreshold), visits[1..], interval,
                     failThreshold, recoverThreshold);
    }
  }

  /** With `need` answers missing and the next probe due at `due`: the upstream is
      Healthy exactly when that many probes were made, and a timeline that reaches
      the bound has made them. */
  lemma {:induction false} ReturnsInTime(t: Track, visits: seq<Visit>, due: int, need: nat, delay: int, interval: int,
                                         failThreshold: int, recoverThreshold: int)
    requires t.health.state.Out() && need >= 1 && t.health.successes + need == recoverThreshold
    requires t.slot.due == Some(due) && t.ended <= due && delay > 0 && interval > 0
    requires Spaced(t, visits, delay, interval, failThreshold, recoverThreshold)
    ensures var t' := After(t, visits, interval, failThreshold, recoverThreshold);
            && (t'.health.state.Healthy? <==> t'.probes >= t.probes + need)
            && (t'.ended >= due + Longest(need, delay, interval) ==> t'.health.state.Healthy?)
    decreases |visits|
  {
    if visits != [] {
      var v, next := visits[0], VisitOnce(t, visits[0], interval, failThreshold, recoverThreshold);
      if !Claimable(t.slot, v.at) {
        ReturnsInTime(next, visits[1..], due, need, delay, interval, failThreshold, recoverThreshold);
      } else if need == 1 {
        InServiceStays(next, visits[1..], interval, failThreshold, recoverThreshold);
      } else {
        ReturnsInTime(next, visits[1..], v.done + interval, need - 1, delay, interval, failThreshold, recoverThreshold);
      }
    } else {
      LongestPositive(need, delay, interval);
    }
  }

  lemma {:induction false} LongestPositive(need: nat, delay: int, interval: int)
    requires delay > 0 && interval > 0
    ensures Longest(need, delay, interval) > 0
  {
    if need > 1 {
      LongestPositive(need - 1, delay, interval);
    }
  }

  /** Failback bound: an upstream that is Down after a failed probe at `failed`
      and answers every later probe is Healthy after exactly recoverThreshold
      probes, and no later than the last backoff (under six minutes) plus R - 1
      health intervals plus R visit delays. */
  lemma FailbackBound(history: seq<Event>, before: Slot, failed: int, random: real, visits: seq<Visit>, delay: int,
                      interval: int, failThreshold: int, recoverThreshold: int)
    requires Replay(history).state.Down? && recoverThreshold >= 1 && delay > 0 && interval > 0 && 0.0 <= random < 1.0
    requires var t := Track(Replay(history), Rescheduled(before, failed, false, true, interval, random), 0, failed);
             Spaced(t, visits, delay, interval, failThreshold, recoverThreshold)
    ensures var t := Track(Replay(history), Rescheduled(before, failed, false, true, interval, random), 0, failed);
            var t' := After(t, visits, interval, failThreshold, recoverThreshold);
            && (t'.health.state.Healthy? <==> t'.probes >= recoverThreshold)
            && (t'.ended >= failed + 360_000_000_000 + (recoverThreshold - 1) * interval + recoverThreshold * delay ==>
                t'.health.state.Healthy?)
  {
    OutCountsProbes(history);
    var slot := Rescheduled(before, failed, false, true, interval, random);
    JitterBounds(interval, slot.failures, random);
    LongestIs(recoverThreshold, delay, interval);
    ReturnsInTime(Track(Replay(history), slot, 0, failed), visits, slot.due.value, recoverThreshold, delay, interval,
                  failThreshold, recoverThreshold);
  }

  // ----- The timeline of the ticker

  /** One round of the scheduler, and its visit to the upstream. */
  datatype Round = Round(start: int, visit: Visit, end: int)

  /** The first tick after x of a ticker started at `base`. */
  function TickAfter(base: int, tick: int, x: int): (t: int)
    requires tick > 0
    ensures x < t <= x + tick
  {
    x + tick - (x - base) % tick
  }

  /** It is a tick, and the earliest later than x. */
  lemma TickIsNext(base: int, tick: int, x: int, j: int) returns (k: int)
    requires tick > 0
    ensures TickAfter(base, tick, x) == base + k * tick
    ensures base + j * tick > x ==> TickAfter(base, tick, x) <= base + j * tick
  {
    k := (x - base) / tick + 1;
    assert (k - 1) * tick + (x - base) % tick == x - base;
    assert k * tick == (k - 1) * tick + tick;
    if j < k {
      NotLater(j, k - 1, tick);
    } else {
      NotLater(k, j, tick);
    }
  }

  lemma NotLater(a: int, b: int, tick: int)
    requires a <= b && tick > 0
    ensures a * tick <= b * tick
  {
    assert (b - a) * tick >= 0;
  }

  /** The ticker holds one tick: a round that outlasts one is followed at once,
      any other by the next tick. */
  function NextStart(base: int, tick: int, start: int, end: int): int
    requires tick > 0
  {
    Max(end, TickAfter(base, tick, start))
  }

  /** A tick that fires during the round is the one it finds; else it waits for the
      next, less than a tick after the end. */
  lemma NextStartMeaning(base: int, tick: int, start: int, end: int, j: int)
    requires tick > 0 && start <= end
    ensures start < base + j * tick <= end ==> NextStart(base, tick, start, end) == end
    ensures end <= NextStart(base, tick, start, end) <= end + tick
    ensures NextStart(base, tick, start, end) > end ==>
              NextStart(base, tick, start, end) == TickAfter(base, tick, start)
  {
    var _ := TickIsNext(base, tick, start, j);
  }

  /** Rounds as the loop runs them after one that took from `start` to `end`: each
      starts when the ticker says, at most `lag` late, and takes at most `longest`,
      an attempt timeout and bookkeeping. */
  ghost predicate Ticking(base: int, tick: int, start: int, end: int, rounds: seq<Round>, lag: nat, longest: int)
    requires tick > 0
    decreases |rounds|
  {
    && start <= end <= start + longest
    && (rounds == [] ||
        var r, next := rounds[0], NextStart(base, tick, start, end);
        && next <= r.start <= next + lag && r.start <= r.visit.at <= r.visit.done <= r.end
        && Ticking(base, tick, r.start, r.end, rounds[1..], lag, longest))
  }

  function Visits(rounds: seq<Round>): seq<Visit> {
    seq(|rounds|, i requires 0 <= i < |rounds| => rounds[i].visit)
  }

  /** The visits of such rounds follow one another within a tick and two rounds. */
  lemma {:induction false} RoundsAreSpaced(t: Track, base: int, start: int, end: int, rounds: seq<Round>, lag: nat,
                                           longest: int, interval: int, failThreshold: int, recoverThreshold: int)
    requires Ticking(base, Tick(interval), start, end, rounds, lag, longest) && start <= t.ended <= end
    ensures Spaced(t, Visits(rounds), Tick(interval) + 2 * longest + lag, interval, failThreshold, recoverThreshold)
    decreases |rounds|
  {
    if rounds != [] {
      var r := rounds[0];
      assert Ticking(base, Tick(interval), r.start, r.end, rounds[1..], lag, longest);
      var next := VisitOnce(t, r.visit, interval, failThreshold, recoverThreshold);
      RoundsAreSpaced(next, base, r.start, r.end, rounds[1..], lag, longest, interval, failThreshold, recoverThreshold);
      assert Visits(rounds)[1..] == Visits(rounds[1..]);
    }
  }

  /** Failback bound in terms of the ticker: R probes suffice, within six minutes
      plus R - 1 health intervals plus R times a tick and two rounds. */
  lemma FailbackUnderTicker(history: seq<Event>, before: Slot, failed: int, random: real, base: int, start: int,
                            end: int, rounds: seq<Round>, lag: nat, longest: int,
                            interval: int, failThreshold: int, recoverThreshold: int)
    requires Replay(history).state.Down? && recoverThreshold >= 1 && interval > 0 && 0.0 <= random < 1.0
    requires Ticking(base, Tick(interval), start, end, rounds, lag, longest) && start <= failed <= end
    ensures var t := Track(Replay(history), Rescheduled(before, failed, false, true, interval, random), 0, failed);
            var t' := After(t, Visits(rounds), interval, failThreshold, recoverThreshold);
            var delay := Tick(interval) + 2 * longest + lag;
            && (t'.health.state.Healthy? <==> t'.probes >= recoverThreshold)
            && (t'.ended >= failed + 360_000_000_000 + (recoverThreshold - 1) * interval + recoverThreshold * delay ==>
                  t'.health.state.Healthy?)
  {
    var t := Track(Replay(history), Rescheduled(before, failed, false, true, interval, random), 0, failed);
    var delay := Tick(interval) + 2 * longest + lag;
    RoundsAreSpaced(t, base, start, end, rounds, lag, longest, interval, failThreshold, recoverThreshold);
    FailbackBound(history, before, failed, random, Visits(rounds), delay, interval, failThreshold, recoverThreshold);
  }
}
