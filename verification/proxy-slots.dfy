/** Slot and limit accounting over every run of the proxy. */
module ProxySlots {
  import opened Wrappers
  import opened Counting
  import opened Proxy
  import Failover

  // ----- What a process holds

  predicate InFlightAt(q: Proc, g: nat, i: nat) {
    q.gen == g && q.task.Holding? && q.task.pos < |q.task.choice.picks| && q.task.choice.picks[q.task.pos] == i
  }

  /** The process left `resolve` through the exit after the slot was taken. */
  predicate LeakedAt(q: Proc, g: nat, i: nat) {
    q.gen == g && (q.task.Returning? || q.task.Finished?) && q.task.leak == Some(i)
  }

  predicate Handling(q: Proc, g: nat) {
    q.gen == g && (q.task.Scanning? || q.task.Trying? || q.task.Holding? || q.task.Reporting? || q.task.Returning?)
  }

  function InFlight(g: nat, i: nat): Proc -> bool {
    q => InFlightAt(q, g, i)
  }

  function Leaked(g: nat, i: nat): Proc -> bool {
    q => LeakedAt(q, g, i)
  }

  function Occupies(g: nat, i: nat): Proc -> bool {
    q => InFlightAt(q, g, i) || LeakedAt(q, g, i)
  }

  function Handlers(g: nat): Proc -> bool {
    q => Handling(q, g)
  }

  function One(b: bool): nat {
    if b then 1 else 0
  }

  // ----- The invariant

  ghost predicate SlotOk(s: Sys, g: nat, i: nat)
    requires g < |s.gens| && i < |s.gens[g].entries|
  {
    s.gens[g].entries[i].slots == Count(s.procs, Occupies(g, i)) && s.gens[g].entries[i].slots <= Failover.SLOTS
  }

  ghost predicate SlotsOk(s: Sys) {
    forall g, i | 0 <= g < |s.gens| && 0 <= i < |s.gens[g].entries| ::
      SlotOk(s, g, i)
  }

  ghost predicate LimitOk(s: Sys, g: nat)
    requires g < |s.gens|
  {
    s.gens[g].limit == Count(s.procs, Handlers(g)) && s.gens[g].limit <= s.gens[g].cfg.maxConcurrent
  }

  ghost predicate LimitsOk(s: Sys) {
    forall g | 0 <= g < |s.gens| :: LimitOk(s, g)
  }

  /** One process step changes each slot count by what the process takes up. */
  lemma MoveBalances(g: Gen, p: nat, q: Proc, m: Move, i: nat)
    requires ProcOk(g, q) && CanMove(g, p, q, m) && i < |g.entries|
    requires g.entries[i].slots <= Failover.SLOTS
    ensures var (g', q') := Moved(g, p, q, m);
            && |g'.entries| == |g.entries|
            && g'.entries[i].slots + One(Occupies(q.gen, i)(q)) == g.entries[i].slots + One(Occupies(q.gen, i)(q'))
            && g'.entries[i].slots <= Failover.SLOTS
            && g'.limit + One(Handlers(q.gen)(q)) == g.limit + One(Handlers(q.gen)(q'))
            && g'.limit <= g.limit && g'.cfg == g.cfg && q'.gen == q.gen
  {
  }

  lemma SlotAfterStep(s: Sys, p: nat, m: Move, g: nat, i: nat)
    requires Ok(s) && Enabled(s, Step(p, m))
    requires g < |s.gens| && i < |s.gens[g].entries| && SlotOk(s, g, i)
    ensures var s' := Next(s, Step(p, m)); i < |s'.gens[g].entries| && SlotOk(s', g, i)
  {
    var q := s.procs[p];
    var r := Moved(s.gens[q.gen], p, q, m);
    CountUpdate(s.procs, p, r.1, Occupies(g, i));
    if g == q.gen {
      MoveBalances(s.gens[g], p, q, m, i);
    } else {
      MoveKeepsShape(s.gens[q.gen], p, q, m);
    }
  }

  lemma NewProcessesHoldNothing(procs: seq<Proc>, q: Proc, g: nat, i: nat)
    requires q.task.Scanning? || q.task.Probing?
    ensures Count(procs + [q], Occupies(g, i)) == Count(procs, Occupies(g, i))
  {
    CountAppend(procs, q, Occupies(g, i));
  }

  lemma NobodyInNewGen(s: Sys, i: nat)
    requires Ok(s)
    ensures Count(s.procs, Occupies(|s.gens|, i)) == 0 && Count(s.procs, Handlers(|s.gens|)) == 0
  {
    CountNone(s.procs, Occupies(|s.gens|, i));
    CountNone(s.procs, Handlers(|s.gens|));
  }

  lemma SlotsAfterCommit(s: Sys, g: nat, i: nat)
    requires Ok(s) && Enabled(s, CommitReload) && SlotsOk(s)
    requires g <= |s.gens| && i < |Next(s, CommitReload).gens[g].entries|
    ensures SlotOk(Next(s, CommitReload), g, i)
  {
    if g == |s.gens| {
      NobodyInNewGen(s, i);
    } else {
      assert SlotOk(s, g, i);
    }
  }

  lemma SlotAfter(s: Sys, a: Action, g: nat, i: nat)
    requires Ok(s) && Enabled(s, a) && SlotsOk(s)
    requires g < |Next(s, a).gens| && i < |Next(s, a).gens[g].entries|
    ensures SlotOk(Next(s, a), g, i)
  {
    match a {
      case Step(p, m) =>
        MoveKeepsShape(s.gens[s.procs[p].gen], p, s.procs[p], m);
        assert SlotOk(s, g, i);
        SlotAfterStep(s, p, m, g, i);
      case Admit(k) =>
        assert SlotOk(s, g, i);
        NewProcessesHoldNothing(s.procs, Proc(k, Scanning([]), Quiet), g, i);
      case SpawnProbe(k, at) =>
        assert SlotOk(s, g, i);
        NewProcessesHoldNothing(s.procs, Proc(k, Probing(at), Quiet), g, i);
      case CommitReload => SlotsAfterCommit(s, g, i);
      case _ => assert SlotOk(s, g, i);
    }
  }

  lemma StepKeepsSlots(s: Sys, a: Action)
    requires Ok(s) && Enabled(s, a) && SlotsOk(s)
    ensures SlotsOk(Next(s, a))
  {
    var s' := Next(s, a);
    forall g, i | 0 <= g < |s'.gens| && 0 <= i < |s'.gens[g].entries| ensures SlotOk(s', g, i) {
      SlotAfter(s, a, g, i);
    }
  }

  lemma LimitAfterStep(s: Sys, p: nat, m: Move, g: nat)
    requires Ok(s) && Enabled(s, Step(p, m)) && SlotsOk(s) && g < |s.gens| && LimitOk(s, g)
    ensures LimitOk(Next(s, Step(p, m)), g)
  {
    var q := s.procs[p];
    var r := Moved(s.gens[q.gen], p, q, m);
    CountUpdate(s.procs, p, r.1, Handlers(g));
    if g == q.gen {
      assert GenOk(s.gens[g]) && SlotOk(s, g, 0);
      MoveBalances(s.gens[g], p, q, m, 0);
    } else {
      MoveKeepsShape(s.gens[q.gen], p, q, m);
    }
  }

  lemma LimitAfterCommit(s: Sys, g: nat)
    requires Ok(s) && Enabled(s, CommitReload) && g <= |s.gens| && (g < |s.gens| ==> LimitOk(s, g))
    ensures LimitOk(Next(s, CommitReload), g)
  {
    if g == |s.gens| {
      NobodyInNewGen(s, 0);
    }
  }

  lemma LimitAfter(s: Sys, a: Action, g: nat)
    requires Ok(s) && Enabled(s, a) && SlotsOk(s) && g < |Next(s, a).gens| && (g < |s.gens| ==> LimitOk(s, g))
    ensures LimitOk(Next(s, a), g)
  {
    match a {
      case Step(p, m) => LimitAfterStep(s, p, m, g);
      case Admit(k) => CountAppend(s.procs, Proc(k, Scanning([]), Quiet), Handlers(g));
      case SpawnProbe(k, at) => CountAppend(s.procs, Proc(k, Probing(at), Quiet), Handlers(g));
      case CommitReload => LimitAfterCommit(s, g);
      case _ =>
    }
  }

  lemma StepKeepsLimits(s: Sys, a: Action)
    requires Ok(s) && Enabled(s, a) && LimitsOk(s) && SlotsOk(s)
    ensures LimitsOk(Next(s, a))
  {
    var s' := Next(s, a);
    forall g | 0 <= g < |s'.gens| ensures LimitOk(s', g) {
      assert g < |s.gens| ==> LimitOk(s, g);
      LimitAfter(s, a, g);
    }
  }

  lemma RunKeepsAccounts(r: Run, t: nat)
    requires IsRun(r) && t < |r.states|
    ensures SlotsOk(r.states[t]) && LimitsOk(r.states[t])
  {
    var inv := (s: Sys) => SlotsOk(s) && LimitsOk(s);
    forall s, a | Ok(s) && Enabled(s, a) && inv(s) ensures inv(Next(s, a)) {
      StepKeepsSlots(s, a);
      StepKeepsLimits(s, a);
    }
    InvariantOfRuns(r, t, inv);
  }

  // ----- The theorems

  /** Exact slot accounting, in every state of every run: the slots held on an
      upstream of a manager are the client attempts in flight on it plus the
      requests that left through the exit that forgets its slot; there are
      never more than 16. */
  lemma SlotAccounting(r: Run, t: nat, g: nat, i: nat)
    requires IsRun(r) && t < |r.states| && g < |r.states[t].gens| && i < |r.states[t].gens[g].entries|
    ensures var s := r.states[t];
            && s.gens[g].entries[i].slots == Count(s.procs, InFlight(g, i)) + Count(s.procs, Leaked(g, i))
            && s.gens[g].entries[i].slots <= 16
  {
    RunKeepsAccounts(r, t);
    assert SlotOk(r.states[t], g, i);
    CountSplit(r.states[t].procs, Occupies(g, i), InFlight(g, i), Leaked(g, i));
  }

  /** A release never blocks: whoever holds a slot finds a token to take back. */
  lemma ReleaseNeverBlocks(r: Run, t: nat, p: nat)
    requires IsRun(r) && t < |r.states| && p < |r.states[t].procs|
    ensures var s := r.states[t]; var q := s.procs[p];
            Ok(s) && (q.task.Holding? ==> s.gens[q.gen].entries[q.task.choice.picks[q.task.pos]].slots > 0)
            && (q.task.Returning? ==> s.gens[q.gen].limit > 0)
  {
    RunKeepsOk(r, t);
    RunKeepsAccounts(r, t);
    var s := r.states[t];
    var q := s.procs[p];
    if q.task.Holding? {
      assert SlotOk(s, q.gen, q.task.choice.picks[q.task.pos]);
      CountPositive(s.procs, p, Occupies(q.gen, q.task.choice.picks[q.task.pos]));
    } else if q.task.Returning? {
      assert LimitOk(s, q.gen);
      CountPositive(s.procs, p, Handlers(q.gen));
    }
  }

  /** Admission: the occupancy of a snapshot's limit is the number of handlers
      in flight that captured that snapshot, and never exceeds its maximum. */
  lemma LimitAccounting(r: Run, t: nat, g: nat)
    requires IsRun(r) && t < |r.states| && g < |r.states[t].gens|
    ensures var s := r.states[t];
            s.gens[g].limit == Count(s.procs, Handlers(g)) && s.gens[g].limit <= s.gens[g].cfg.maxConcurrent
  {
    RunKeepsAccounts(r, t);
    assert LimitOk(r.states[t], g);
  }

  /** A waiting client can take a slot if and only if attempts in flight and forgotten
      slots are fewer than sixteen. */
  lemma AcquireExactly(r: Run, t: nat, p: nat)
    requires IsRun(r) && t < |r.states| && p < |r.states[t].procs|
    requires var q := r.states[t].procs[p]; q.log.Quiet? && q.task.Trying? && q.task.pos < |q.task.choice.picks|
    ensures var s := r.states[t]; var q := s.procs[p]; var i := q.task.choice.picks[q.task.pos];
            Ok(s) && (Enabled(s, Step(p, Acquire)) <==>
                      Count(s.procs, InFlight(q.gen, i)) + Count(s.procs, Leaked(q.gen, i)) < 16)
  {
    RunKeepsOk(r, t);
    var q := r.states[t].procs[p];
    SlotAccounting(r, t, q.gen, q.task.choice.picks[q.task.pos]);
  }

  /** A handler is admitted if and only if fewer than MaxConcurrent are in flight. */
  lemma AdmitExactly(r: Run, t: nat, g: nat)
    requires IsRun(r) && t < |r.states| && g < |r.states[t].gens|
    ensures var s := r.states[t];
            Ok(s) && (Enabled(s, Admit(g)) <==> Count(s.procs, Handlers(g)) < s.gens[g].cfg.maxConcurrent)
  {
    RunKeepsOk(r, t);
    LimitAccounting(r, t, g);
  }

  // ----- A forgotten slot is lost for good

  ghost function Lost(s: Sys, g: nat, i: nat): nat {
    Count(s.procs, Leaked(g, i))
  }

  lemma MoveKeepsLeak(g: Gen, p: nat, q: Proc, m: Move, k: nat, i: nat)
    requires ProcOk(g, q) && CanMove(g, p, q, m) && LeakedAt(q, k, i)
    ensures LeakedAt(Moved(g, p, q, m).1, k, i)
  {
  }

  lemma StepKeepsLost(s: Sys, a: Action, g: nat, i: nat)
    requires Ok(s) && Enabled(s, a)
    ensures Lost(Next(s, a), g, i) >= Lost(s, g, i)
  {
    match a {
      case Step(p, m) =>
        var q := s.procs[p];
        CountUpdate(s.procs, p, Moved(s.gens[q.gen], p, q, m).1, Leaked(g, i));
        if LeakedAt(q, g, i) {
          MoveKeepsLeak(s.gens[q.gen], p, q, m, g, i);
        }
      case Admit(k) => CountAppend(s.procs, Proc(k, Scanning([]), Quiet), Leaked(g, i));
      case SpawnProbe(k, at) => CountAppend(s.procs, Proc(k, Probing(at), Quiet), Leaked(g, i));
      case _ =>
    }
  }

  lemma LostStays(r: Run, t: nat, u: nat, g: nat, i: nat)
    requires IsRun(r) && t <= u < |r.states| && g < |r.states[t].gens| && i < |r.states[t].gens[g].entries|
    ensures g < |r.states[u].gens| && i < |r.states[u].gens[g].entries|
    ensures Lost(r.states[u], g, i) >= Lost(r.states[t], g, i)
  {
    var n := Lost(r.states[t], g, i);
    var inv := (s: Sys) => g < |s.gens| && i < |s.gens[g].entries| && Lost(s, g, i) >= n;
    forall s, a | Ok(s) && Enabled(s, a) && inv(s) ensures inv(Next(s, a)) {
      ShapePersists(s, a, g);
      StepKeepsLost(s, a, g, i);
    }
    InvariantFrom(r, t, u, inv);
  }

  /** A slot forgotten by time t is still held at every later time, so an upstream
      that has lost n slots serves at most 16 - n attempts at once from then on,
      and none at all after sixteen, until a reload replaces the manager. */
  lemma ForgottenSlotsNeverReturn(r: Run, t: nat, u: nat, g: nat, i: nat)
    requires IsRun(r) && t <= u < |r.states| && g < |r.states[t].gens| && i < |r.states[t].gens[g].entries|
    ensures g < |r.states[u].gens| && i < |r.states[u].gens[g].entries|
    ensures var slots := r.states[u].gens[g].entries[i].slots;
            Count(r.states[u].procs, InFlight(g, i)) + Lost(r.states[t], g, i) <= slots <= 16
  {
    LostStays(r, t, u, g, i);
    SlotAccounting(r, u, g, i);
  }

  predicate Wants(q: Proc, g: nat, i: nat) {
    q.gen == g && q.task.Trying? && q.task.pos < |q.task.choice.picks| && q.task.choice.picks[q.task.pos] == i
  }

  /** After sixteen such exits no request ever gets a slot there again. */
  lemma SixteenLossesStarve(r: Run, t: nat, u: nat, g: nat, i: nat, p: nat)
    requires IsRun(r) && t <= u < |r.actions| && g < |r.states[t].gens| && i < |r.states[t].gens[g].entries|
    requires Lost(r.states[t], g, i) >= 16 && r.actions[u] == Step(p, Acquire)
    ensures p < |r.states[u].procs|
    ensures !Wants(r.states[u].procs[p], g, i)
  {
    assert StepAt(r, u);
    ForgottenSlotsNeverReturn(r, t, u, g, i);
  }

  /** With nothing in flight, the slots are all back exactly when no request left
      through that exit. */
  lemma AllBackExactly(r: Run, t: nat, g: nat, i: nat)
    requires IsRun(r) && t < |r.states| && g < |r.states[t].gens| && i < |r.states[t].gens[g].entries|
    requires forall p | 0 <= p < |r.states[t].procs| :: !InFlightAt(r.states[t].procs[p], g, i)
    ensures r.states[t].gens[g].entries[i].slots == 0 <==>
            forall p | 0 <= p < |r.states[t].procs| :: !LeakedAt(r.states[t].procs[p], g, i)
  {
    var procs := r.states[t].procs;
    SlotAccounting(r, t, g, i);
    CountNone(procs, InFlight(g, i));
    if p :| 0 <= p < |procs| && LeakedAt(procs[p], g, i) {
      CountPositive(procs, p, Leaked(g, i));
    } else {
      CountNone(procs, Leaked(g, i));
    }
  }
}
