/** The probe scheduler (internal/health/scheduler.go): exponential backoff with
    a cap and jitter, the due map with its in-flight mark, and the time a
    recovered upstream needs to return to service. Times are nanoseconds. */
module Scheduling {
  import opened Wrappers
  import opened Health
  import opened Config
  import opened Failover
  import Walking

  const CAP := 5 * MINUTE
  const DAY := 24 * 60 * MINUTE

  function Pow2(n: nat): (p: nat)
    ensures p >= 1
  {
    if n == 0 then 1 else 2 * Pow2(n - 1)
  }

  function AtLeastOne(failures: int): (f: nat)
    ensures f >= 1
  {
    if failures < 1 then 1 else failures
  }

  /** The closed form: base doubled once per failure after the first, capped. */
  function Delay(base: int, failures: int): int {
    Min(base * Pow2(AtLeastOne(failures) - 1), CAP)
  }

  /** The conversion back to an integer duration truncates. */
  function Jittered(delay: int, random: real): int {
    (delay as real * (0.8 + 0.4 * random)).Floor
  }

  /** `base` doubled n times, as the loop does it. */
  function Doubled(base: int, n: nat): int {
    if n == 0 then base else 2 * Doubled(base, n - 1)
  }

  lemma {:induction false} DoubledIs(base: int, n: nat)
    ensures Doubled(base, n) == base * Pow2(n)
  {
    if n > 0 {
      DoubledIs(base, n - 1);
      assert 2 * (base * Pow2(n - 1)) == base * (2 * Pow2(n - 1));
    }
  }

  lemma {:induction false} DoubledGrows(base: int, a: nat, b: nat)
    requires base > 0 && a <= b
    ensures 0 < Doubled(base, a) <= Doubled(base, b)
    decreases b
  {
    if a < b {
      DoubledGrows(base, a, b - 1);
    } else if a > 0 {
      DoubledGrows(base, a - 1, b - 1);
    }
  }

  lemma {:induction false} DoubledAtLeast(base: int, n: nat)
    requires base > 0
    ensures Pow2(n) <= Doubled(base, n)
  {
    if n > 0 {
      DoubledAtLeast(base, n - 1);
    }
  }

  lemma Pow2Of39()
    ensures Pow2(39) > CAP
  {
    assert Pow2(8) == 256;
    assert Pow2(16) == 65536;
    assert Pow2(24) == 16777216;
    assert Pow2(32) == 4294967296;
    assert Pow2(39) == 549755813888;
  }

  lemma StepsBelowCap(base: int, n: nat)
    requires base > 0 && Doubled(base, n) < CAP
    ensures n < 39
  {
    DoubledAtLeast(base, n);
    Pow2Of39();
    if n >= 39 {
      DoubledGrows(1, 39, n);
      DoubledIs(1, 39);
      DoubledIs(1, n);
    }
  }

  /** The doubling loop computes the closed form in at most 39 steps whatever the
      number of failures, and its variable stays within the larger of the base
      and ten minutes, so a base that fits an int64 never overflows. */
  method Backoff(base: int, failures: int, random: real) returns (result: int, ghost steps: nat, ghost peak: int)
    requires base > 0
    ensures result == Jittered(Delay(base, failures), random)
    ensures Delay(base, failures) == Min(base * Pow2(if failures < 1 then 0 else failures - 1), 300_000_000_000)
    ensures steps <= 39
    ensures peak <= if base < 2 * CAP then 2 * CAP else base
  {
    var f := if failures < 1 then 1 else failures;
    var delay := base;
    var i := 1;
    steps, peak := 0, base;
    while i < f && delay < CAP
      invariant 1 <= i <= f && steps == i - 1 <= 39
      invariant delay == Doubled(base, i - 1) && delay <= peak
      invariant peak <= if base < 2 * CAP then 2 * CAP else base
    {
      StepsBelowCap(base, i - 1);
      delay := delay * 2;
      i := i + 1;
      steps := steps + 1;
      peak := if delay > peak then delay else peak;
    }
    DoubledGrows(base, i - 1, f - 1);
    DoubledIs(base, f - 1);
    if delay > CAP {
      delay := CAP;
    }
    assert delay == Delay(base, failures);
    return Jittered(delay, random), steps, peak;
  }

  lemma JitterProduct(d: real, random: real)
    requires d > 0.0 && 0.0 <= random < 1.0
    ensures 0.8 * d <= d * (0.8 + 0.4 * random) < 1.2 * d
  {
    assert d * random >= 0.0;
    assert d * (1.0 - random) > 0.0;
  }

  lemma JitterOf(d: int, random: real)
    requires d > 0 && 0.0 <= random < 1.0
    ensures 0 <= Jittered(d, random) && 5 * Jittered(d, random) < 6 * d && 4 * d < 5 * Jittered(d, random) + 5
    ensures Jittered(d, random) as real <= d as real * (4.0 + 2.0 * random) / 5.0 < Jittered(d, random) as real + 1.0
  {
    var rd := d as real;
    JitterProduct(rd, random);
    var x := rd * (0.8 + 0.4 * random);
    assert x < 1.2 * rd;
    FloorWithin(x, d);
  }

  lemma FloorWithin(x: real, d: int)
    requires d > 0 && 0.8 * d as real <= x < 1.2 * d as real
    ensures 0 <= x.Floor && 5 * x.Floor < 6 * d && 4 * d < 5 * x.Floor + 5
  {
    var f := x.Floor;
    assert f as real <= x < f as real + 1.0;
    assert (5 * f) as real < (6 * d) as real;
    assert (4 * d) as real < (5 * f + 5) as real;
  }

  lemma {:induction false} DelayBounds(base: int, failures: int)
    requires base > 0
    ensures 0 < Delay(base, failures) <= CAP
  {
    DoubledGrows(base, 0, AtLeastOne(failures) - 1);
    DoubledIs(base, AtLeastOne(failures) - 1);
  }

  /** Jitter in [0.8, 1.2): the wait stays below six minutes and within those
      factors of the delay, up to a truncation. */
  lemma JitterBounds(base: int, failures: int, random: real)
    requires base > 0 && 0.0 <= random < 1.0
    ensures 0 <= Jittered(Delay(base, failures), random) < 360_000_000_000
    ensures var d := Delay(base, failures); 4 * d < 5 * Jittered(d, random) + 5 && 5 * Jittered(d, random) < 6 * d
    ensures var d := Delay(base, failures);
            Jittered(d, random) as real <= d as real * (4.0 + 2.0 * random) / 5.0 < Jittered(d, random) as real + 1.0
  {
    DelayBounds(base, failures);
    JitterOf(Delay(base, failures), random);
  }

  /** One more failure doubles the delay until the cap. */
  lemma {:induction false} DelayDoubles(base: int, failures: nat)
    requires base > 0 && failures >= 1
    ensures Delay(base, failures + 1) == Min(2 * Delay(base, failures), CAP)
    ensures Delay(base, 1) == Min(base, 300_000_000_000)
  {
    DoubledIs(base, failures);
    DoubledIs(base, failures - 1);
    DoubledIs(base, 0);
  }

  // ----- The due map

  function Tick(interval: int): (tick: int)
    ensures 250_000_000 <= tick <= 1_000_000_000
    ensures 250_000_000 <= interval / 4 <= 1_000_000_000 ==> tick == interval / 4
    ensures interval / 4 < 250_000_000 ==> tick == 250_000_000
    ensures interval / 4 > 1_000_000_000 ==> tick == 1_000_000_000
  {
    var quarter := interval / 4;
    if quarter < 250 * MILLISECOND then 250 * MILLISECOND else Min(quarter, SECOND)
  }

  /** What the scheduler knows about one name. */
  datatype Slot = Slot(due: Option<int>, failures: nat)

  function Claimable(s: Slot, now: int): bool {
    s.due.None? || now >= s.due.value
  }

  /** After a probe that ended at `now`; `down` is the manager's state then. */
  function Rescheduled(s: Slot, now: int, success: bool, down: bool, interval: int, random: real): Slot {
    if success then Slot(Some(now + interval), 0)
    else
      var failures := if down then s.failures + 1 else 1;
      Slot(Some(now + Jittered(Delay(interval, failures), random)), failures)
  }

  class Scheduler {
    const interval: int
    var due: map<string, int>
    var failures: map<string, nat>

    constructor (interval: int)
      ensures this.interval == interval && forall name :: Knows(name) == Slot(None, 0)
    {
      this.interval, due, failures := interval, map[], map[];
    }

    function Knows(name: string): Slot
      reads this
    {
      Slot(if name in due then Some(due[name]) else None, if name in failures then failures[name] else 0)
    }

    /** A claim marks the name for a day, far beyond any round. */
    method IsDue(name: string, now: int) returns (ok: bool)
      modifies this`due
      ensures ok == Claimable(old(Knows(name)), now)
      ensures Knows(name) == if ok then old(Knows(name)).(due := Some(now + 86_400_000_000_000)) else old(Knows(name))
      ensures forall other | other != name :: Knows(other) == old(Knows(other))
    {
      if name in due && now < due[name] {
        return false;
      }
      due := due[name := now + DAY];
      return true;
    }

    method Schedule(name: string, now: int, success: bool, down: bool, random: real)
      requires interval > 0
      modifies this
      ensures Knows(name) == Rescheduled(old(Knows(name)), now, success, down, interval, random)
      ensures forall other | other != name :: Knows(other) == old(Knows(other))
    {
      if success {
        failures := failures[name := 0];
        due := due[name := now + interval];
        return;
      }
      if down {
        failures := failures[name := (if name in failures then failures[name] else 0) + 1];
      } else {
        failures := failures[name := 1];
      }
      var wait, _, _ := Backoff(interval, failures[name], random);
      due := due[name := now + wait];
    }
  }

  /** One probe, should it be made: when it is asked for, when it ends, and how. */
  datatype ProbeRun = ProbeRun(asked: int, done: int, reply: Walking.Reply, random: real) {
    /** A response other than SERVFAIL and REFUSED. */
    predicate Good() {
      reply.Acceptable()
    }
  }

  function OutcomeOf(p: ProbeRun): Outcome {
    if p.Good() then Success(true) else Failure
  }

  /** What one round makes of an upstream's entry and slot: a due name is probed,
      reported and rescheduled from the end of its probe, so no in-flight mark is
      left; nothing happens to a name that is not due. */
  ghost predicate Settled(e: Entry, e': Entry, s: Slot, s': Slot, p: ProbeRun, interval: int, failThreshold: int,
                          recoverThreshold: int) {
    if Claimable(s, p.asked)
    then e' == Reported(e, OutcomeOf(p), failThreshold, recoverThreshold)
         && s' == Rescheduled(s, p.done, p.Good(), e'.health.state.Down?, interval, p.random)
    else e' == e && s' == s
  }

  method ReportProbe(m: Manager, name: string, p: ProbeRun)
    requires m.Valid() && name in m.byName
    modifies m`entries, m`lastActive, m`lines
    ensures m.Valid()
    ensures var i := m.byName[name];
            m.entries == ReportedAt(old(m.entries), i, OutcomeOf(p), m.failThreshold, m.recoverThreshold)
  {
    if p.reply.Error? {
      m.RecordFailure(name);
    } else if p.reply.code == Walking.SERVFAIL || p.reply.code == Walking.REFUSED {
      m.RecordFailure(name);
    } else {
      m.RecordSuccess(name, true);
    }
  }

  method ProbeIfDue(s: Scheduler, m: Manager, name: string, p: ProbeRun)
    requires s.interval > 0 && m.Valid() && name in m.byName
    modifies s, m`entries, m`lastActive, m`lines
    ensures m.Valid() && |m.entries| == |old(m.entries)|
    ensures var i := m.byName[name];
            && Settled(old(m.entries)[i], m.entries[i], old(s.Knows(name)), s.Knows(name), p, s.interval,
                       m.failThreshold, m.recoverThreshold)
            && forall k | 0 <= k < |m.entries| && k != i :: m.entries[k] == old(m.entries)[k]
    ensures forall other | other != name :: s.Knows(other) == old(s.Knows(other))
  {
    var due := s.IsDue(name, p.asked);
    if !due {
      return;
    }
    ReportProbe(m, name, p);
    s.Schedule(name, p.done, p.Good(), m.entries[m.byName[name]].health.state.Down?, p.random);
  }

  /** One round of probeAll over validated upstreams. Each probe goroutine touches
      only its own name, so their order does not matter and the model completes
      them in list order. */
  method ProbeAll(s: Scheduler, m: Manager, upstreams: seq<Upstream>, probes: seq<ProbeRun>)
    requires s.interval > 0 && m.Valid() && |probes| == |upstreams| && Distinct(upstreams)
    requires forall k | 0 <= k < |upstreams| :: upstreams[k].name in m.byName
    modifies s, m`entries, m`lastActive, m`lines
    ensures m.Valid() && |m.entries| == |old(m.entries)|
    ensures forall k | 0 <= k < |upstreams| ::
              var name := upstreams[k].name; var i := m.byName[name];
              Settled(old(m.entries)[i], m.entries[i], old(s.Knows(name)), s.Knows(name), probes[k], s.interval,
                      m.failThreshold, m.recoverThreshold)
  {
    for j := 0 to |upstreams|
      invariant m.Valid() && |m.entries| == |old(m.entries)|
      invariant forall k | 0 <= k < j ::
                  var name := upstreams[k].name; var i := m.byName[name];
                  Settled(old(m.entries)[i], m.entries[i], old(s.Knows(name)), s.Knows(name), probes[k], s.interval,
                          m.failThreshold, m.recoverThreshold)
      invariant forall k | j <= k < |upstreams| ::
                  var name := upstreams[k].name;
                  m.entries[m.byName[name]] == old(m.entries)[m.byName[name]] && s.Knows(name) == old(s.Knows(name))
    {
      OtherIndices(m.entries, m.byName, upstreams, j);
      ProbeIfDue(s, m, upstreams[j].name, probes[j]);
    }
  }

  lemma OtherIndices(es: seq<Entry>, byName: map<string, nat>, upstreams: seq<Upstream>, j: nat)
    requires Indexed(es, byName) && Distinct(upstreams) && j < |upstreams|
    requires forall k | 0 <= k < |upstreams| :: upstreams[k].name in byName
    ensures forall k | 0 <= k < |upstreams| && k != j ::
              upstreams[k].name != upstreams[j].name && byName[upstreams[k].name] != byName[upstreams[j].name]
  {
  }

  /** A failed probe seen as Down: when it ended, and the jitter drawn for it. */
  datatype Failed = Failed(at: int, random: real)

  function AfterFailures(s: Slot, failed: seq<Failed>, interval: int): Slot {
    if failed == [] then s
    else
      var last := failed[|failed| - 1];
      Rescheduled(AfterFailures(s, failed[..|failed| - 1], interval), last.at, false, true, interval, last.random)
  }

  lemma {:induction false} FailuresAddUp(s: Slot, failed: seq<Failed>, interval: int)
    ensures AfterFailures(s, failed, interval).failures == s.failures + |failed|
  {
    if failed != [] {
      FailuresAddUp(s, failed[..|failed| - 1], interval);
    }
  }

  /** After any number of consecutive failed probes seen as Down, the wait after the
      last is base * 2^(f-1) up to the cap, with f all failures since the slot was
      reset, so each failure doubles it; a success resets it. */
  lemma {:induction false} FailuresDouble(s: Slot, failed: seq<Failed>, interval: int)
    requires interval > 0 && failed != []
    ensures var n, last := |failed|, failed[|failed| - 1];
            && AfterFailures(s, failed, interval).due
               == Some(last.at + Jittered(Min(interval * Pow2(s.failures + n - 1), 300_000_000_000), last.random))
            && Delay(interval, s.failures + n + 1) == Min(2 * Delay(interval, s.failures + n), 300_000_000_000)
    ensures forall now, down, random ::
              Rescheduled(AfterFailures(s, failed, interval), now, true, down, interval, random)
                  == Slot(Some(now + interval), 0)
  {
    FailuresAddUp(s, failed[..|failed| - 1], interval);
    DelayDoubles(interval, s.failures + |failed|);
  }

  /** A failed probe that leaves the upstream up counts as the first failure, whatever
      was counted before: the next probe comes after one jittered interval, and the
      n-th further failure seen as Down waits 2^n intervals, up to five minutes. */
  lemma {:induction false} FailureSeenUp(s: Slot, at: int, random: real, failed: seq<Failed>, interval: int)
    requires interval > 0
    ensures var first := Rescheduled(s, at, false, false, interval, random);
            && first == Slot(Some(at + Jittered(Min(interval, 300_000_000_000), random)), 1)
            && (failed != [] ==>
                  var last := failed[|failed| - 1];
                  AfterFailures(first, failed, interval)
                  == Slot(Some(last.at + Jittered(Min(interval * Pow2(|failed|), 300_000_000_000), last.random)),
                          1 + |failed|))
  {
    var first := Rescheduled(s, at, false, false, interval, random);
    DelayDoubles(interval, 1);
    if failed != [] {
      FailuresDouble(first, failed, interval);
      FailuresAddUp(first, failed, interval);
    }
  }

  /** What a round makes of a due upstream, in full. A response other than SERVFAIL
      (2) and REFUSED (5) is a counted success and the next probe follows after the
      interval; anything else is a failure. */
  lemma ProbeSettles(e: Entry, e': Entry, s: Slot, s': Slot, p: ProbeRun, interval: int, failThreshold: int,
                     recoverThreshold: int)
    requires Settled(e, e', s, s', p, interval, failThreshold, recoverThreshold) && interval > 0
    requires s.due.Some? ==> p.asked >= s.due.value
    ensures var h, h' := e.health, e'.health;
            var out := h.state.Down? || h.state.Recovering?;
            if p.reply.Rcode? && p.reply.code != 2 && p.reply.code != 5 then
              && h'.failures == 0 && h'.successes == h.successes + 1
              && h'.state == (if out && h.successes + 1 < recoverThreshold then Recovering else Healthy)
              && s' == Slot(Some(p.done + interval), 0)
            else
              && h'.failures == h.failures + 1 && h'.successes == 0
              && h'.state == (if out || h.failures + 1 >= failThreshold then Down else Suspect)
              && s'.failures == if h'.state.Down? then s.failures + 1 else 1
    ensures e'.config == e.config && e'.attempts == e.attempts
  {
  }
}
