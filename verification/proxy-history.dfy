/** What the reports of a run add up to: recovery discipline, the reach of late
    reports, and what a reload carries over. */
module ProxyHistory {
  import opened Wrappers
  import opened Health
  import opened Selection
  import opened Config
  import opened Proxy
  import Failover
  import RuntimeConfig

  // ----- Health is the replay of the history, in every manager

  ghost predicate Replayed(g: Gen) {
    forall i | 0 <= i < |g.entries| :: g.entries[i].health == Replay(g.entries[i].history)
  }

  ghost predicate HistoriesOk(s: Sys) {
    && (forall g | 0 <= g < |s.gens| :: Replayed(s.gens[g]))
    && (s.reload.Taking? ==>
          && |s.reload.rows| == |s.reload.histories|
          && forall k | 0 <= k < |s.reload.rows| :: s.reload.rows[k].health == Replay(s.reload.histories[k]))
  }

  lemma ReplayStep(history: seq<Event>, e: Event)
    ensures Replay(history + [e]) == Record(Replay(history), e.outcome, e.failThreshold, e.recoverThreshold)
  {
    assert (history + [e])[..|history|] == history;
  }

  /** The report a move makes: to which entry and with which outcome. */
  ghost function ReportOf(q: Proc, m: Move): Option<(nat, Outcome)> {
    if m.Report? && q.task.Reporting? && q.task.pos < |q.task.choice.picks| then
      Some((q.task.choice.picks[q.task.pos], q.task.outcome))
    else if m.ProbeDone? && q.task.Probing? then
      Some((q.task.at, if m.ok then Success(true) else Failure))
    else None
  }

  /** A move records exactly its report, on one entry, and nothing else: in
      particular an exchange answered SERVFAIL or REFUSED records nothing. */
  lemma MoveRecordsItsReport(g: Gen, p: nat, q: Proc, m: Move, i: nat)
    requires ProcOk(g, q) && CanMove(g, p, q, m) && i < |g.entries|
    ensures var g' := Moved(g, p, q, m).0;
            && |g'.entries| == |g.entries| && g'.cfg == g.cfg
            && (match ReportOf(q, m)
                case Some((at, o)) =>
                  if at == i then g'.entries[i] == Recorded(g.entries[i], g.cfg, o) else g'.entries[i] == g.entries[i]
                case None =>
                  g'.entries[i].health == g.entries[i].health && g'.entries[i].history == g.entries[i].history)
  {
  }

  lemma StepKeepsReplayed(s: Sys, p: nat, m: Move)
    requires Ok(s) && Enabled(s, Step(p, m)) && HistoriesOk(s)
    ensures HistoriesOk(Next(s, Step(p, m)))
  {
    var q := s.procs[p];
    var g := s.gens[q.gen];
    var g' := Moved(g, p, q, m).0;
    assert Replayed(g);
    MoveKeepsShape(g, p, q, m);
    forall i | 0 <= i < |g'.entries| ensures g'.entries[i].health == Replay(g'.entries[i].history) {
      MoveRecordsItsReport(g, p, q, m, i);
      var r := ReportOf(q, m);
      if r.Some? {
        ReplayStep(g.entries[i].history, Event(r.value.1, g.cfg.failThreshold, g.cfg.recoverThreshold));
      }
    }
    assert Replayed(g');
  }

  lemma StepKeepsHistories(s: Sys, a: Action)
    requires Ok(s) && Enabled(s, a) && HistoriesOk(s)
    ensures HistoriesOk(Next(s, a))
  {
    match a {
      case Step(p, m) => StepKeepsReplayed(s, p, m);
      case Admit(k) =>
        assert Replayed(s.gens[k]);
        assert Replayed(s.gens[k].(limit := s.gens[k].limit + 1));
      case TakeRow => assert Replayed(Current(s));
      case CommitReload => assert Replayed(NewGen(s.reload.next, s.reload.rows, s.reload.histories));
      case _ =>
    }
  }

  lemma RunKeepsHistories(r: Run, t: nat)
    requires IsRun(r) && t < |r.states|
    ensures HistoriesOk(r.states[t])
  {
    var inv := (s: Sys) => HistoriesOk(s);
    forall s, a | Ok(s) && Enabled(s, a) && inv(s) ensures inv(Next(s, a)) {
      StepKeepsHistories(s, a);
    }
    InvariantOfRuns(r, t, inv);
  }

  // ----- Recovery discipline

  /** A client's success report carries the emergency flag of its selection. */
  ghost predicate ReportsOk(s: Sys) {
    forall p | 0 <= p < |s.procs| :: ReportOk(s.procs[p])
  }

  ghost predicate ReportOk(q: Proc) {
    q.task.Reporting? && q.task.outcome.Success? ==> q.task.outcome.probe == q.task.choice.emergency
  }

  lemma MoveKeepsReport(g: Gen, p: nat, q: Proc, m: Move)
    requires ProcOk(g, q) && CanMove(g, p, q, m) && ReportOk(q)
    ensures ReportOk(Moved(g, p, q, m).1)
  {
  }

  lemma StepKeepsReports(s: Sys, a: Action)
    requires Ok(s) && Enabled(s, a) && ReportsOk(s)
    ensures ReportsOk(Next(s, a))
  {
    if a.Step? {
      assert ReportOk(s.procs[a.p]);
      MoveKeepsReport(s.gens[s.procs[a.p].gen], a.p, s.procs[a.p], a.move);
    }
  }

  lemma RunKeepsReports(r: Run, t: nat)
    requires IsRun(r) && t < |r.states|
    ensures ReportsOk(r.states[t])
  {
    var inv := (s: Sys) => ReportsOk(s);
    forall s, a | Ok(s) && Enabled(s, a) && inv(s) ensures inv(Next(s, a)) {
      StepKeepsReports(s, a);
    }
    InvariantOfRuns(r, t, inv);
  }

  ghost predicate Exists(r: Run, t: nat, g: nat, i: nat) {
    t < |r.states| && g < |r.states[t].gens| && i < |r.states[t].gens[g].entries|
  }

  ghost function At(r: Run, t: nat, g: nat, i: nat): Entry
    requires Exists(r, t, g, i)
  {
    r.states[t].gens[g].entries[i]
  }

  /** The event, if any, that an action adds to entry i of manager g: a report
      by a process of that manager. */
  ghost function ReportMade(s: Sys, a: Action, g: nat, i: nat): seq<Event>
  {
    if a.Step? && a.p < |s.procs| && s.procs[a.p].gen == g < |s.gens| then
      match ReportOf(s.procs[a.p], a.move)
      case Some((at, o)) =>
        if at == i then [Event(o, s.gens[g].cfg.failThreshold, s.gens[g].cfg.recoverThreshold)] else []
      case None => []
    else []
  }

  lemma EntriesPersist(s: Sys, a: Action, g: nat, i: nat)
    requires Ok(s) && Enabled(s, a) && g < |s.gens| && i < |s.gens[g].entries|
    ensures var s' := Next(s, a);
            && g < |s'.gens| && |s'.gens[g].entries| == |s.gens[g].entries| && s'.gens[g].cfg == s.gens[g].cfg
            && s'.gens[g].entries[i].history == s.gens[g].entries[i].history + ReportMade(s, a, g, i)
            && (ReportMade(s, a, g, i) == [] ==> s'.gens[g].entries[i].health == s.gens[g].entries[i].health)
  {
    if a.Step? {
      var q := s.procs[a.p];
      MoveKeepsShape(s.gens[q.gen], a.p, q, a.move);
      if q.gen == g {
        MoveRecordsItsReport(s.gens[g], a.p, q, a.move, i);
      }
    }
  }

  /** The reporter of a counted success: a background probe, or a client whose
      selection was the emergency list. */
  ghost predicate CountedReporter(q: Proc) {
    q.task.Probing? || (q.task.Reporting? && q.task.choice.emergency)
  }

  lemma RecoveryStep(s: Sys, a: Action, g: nat, i: nat)
    requires Ok(s) && Enabled(s, a) && HistoriesOk(s) && ReportsOk(s)
    requires g < |s.gens| && i < |s.gens[g].entries| && s.gens[g].entries[i].health.state.Out()
    ensures var s' := Next(s, a);
            && g < |s'.gens| && i < |s'.gens[g].entries|
            && RecoversAsPromised(s.gens[g].entries[i], s'.gens[g].entries[i], s.gens[g].cfg)
            && (!s'.gens[g].entries[i].health.state.Out() ==>
                  a.Step? && s.procs[a.p].gen == g && CountedReporter(s.procs[a.p]))
  {
    EntriesPersist(s, a, g, i);
    assert Replayed(s.gens[g]);
    var made := ReportMade(s, a, g, i);
    var e := s.gens[g].entries[i];
    if made == [] {
      assert Next(s, a).gens[g].entries[i].history == e.history;
    } else {
      assert ReportOk(s.procs[a.p]);
      RecoversExactlyAtThreshold(e.history, made[0]);
      ReplayStep(e.history, made[0]);
      assert (e.history + made)[|e.history|] == made[0];
      MoveRecordsItsReport(s.gens[g], a.p, s.procs[a.p], a.move, i);
    }
  }

  /** From `e` out of service to `e'`: back in service exactly when a counted
      success was recorded that brings the counted successes since the last
      recorded failure to the threshold; and then Healthy. */
  ghost predicate RecoversAsPromised(e: Entry, e': Entry, cfg: Config) {
    && (!e'.health.state.Out() <==>
          && e'.history == e.history + [Event(Success(true), cfg.failThreshold, cfg.recoverThreshold)]
          && CountedSinceFailure(e'.history) >= cfg.recoverThreshold)
    && (!e'.health.state.Out() ==> e'.health.state.Healthy?)
  }

  /** Over every interleaving of requests, probes and reloads: an upstream that
      is out of service in a manager comes back at a step exactly when that step
      records a counted success which brings the counted successes since the
      last recorded failure (inherited ones included) to that manager's
      recoverThreshold. It is then Healthy, and the reporter was a probe or a
      client on an emergency selection of that very manager. */
  lemma RecoveryDiscipline(r: Run, t: nat, g: nat, i: nat)
    requires IsRun(r) && t < |r.actions| && Exists(r, t, g, i) && At(r, t, g, i).health.state.Out()
    ensures Exists(r, t + 1, g, i)
    ensures RecoversAsPromised(At(r, t, g, i), At(r, t + 1, g, i), r.states[t].gens[g].cfg)
    ensures !At(r, t + 1, g, i).health.state.Out() ==>
              && r.actions[t].Step? && r.actions[t].p < |r.states[t].procs|
              && r.states[t].procs[r.actions[t].p].gen == g
              && CountedReporter(r.states[t].procs[r.actions[t].p])
  {
    RunKeepsHistories(r, t);
    RunKeepsReports(r, t);
    assert StepAt(r, t);
    RecoveryStep(r.states[t], r.actions[t], g, i);
  }

  /** Failures of clients and probes count alike: in every reachable state an
      upstream whose last n reports, n at least the threshold in force at the
      last one, all failed is Down. */
  lemma FailureRunIsDown(r: Run, t: nat, g: nat, i: nat, n: nat)
    requires IsRun(r) && Exists(r, t, g, i)
    requires var h := At(r, t, g, i).history;
             0 < n <= |h| && h[|h| - 1].failThreshold <= n && forall k | |h| - n <= k < |h| :: h[k].outcome.Failure?
    ensures At(r, t, g, i).health.state.Down?
  {
    RunKeepsHistories(r, t);
    assert Replayed(r.states[t].gens[g]);
    TrailingFailuresAreDown(At(r, t, g, i).history, n);
  }

  // ----- Late reports stay in their own manager

  /** The reports that processes of manager g make on its entry i in steps from
      t0 up to t1. */
  ghost function OwnReports(r: Run, g: nat, i: nat, t0: nat, t1: nat): seq<Event>
    requires t0 <= t1 <= |r.actions| < |r.states|
    decreases t1 - t0
  {
    if t0 == t1 then []
    else OwnReports(r, g, i, t0, t1 - 1) + ReportMade(r.states[t1 - 1], r.actions[t1 - 1], g, i)
  }

  lemma ManagersPersist(r: Run, g: nat, i: nat, t0: nat, t1: nat)
    requires IsRun(r) && t0 <= t1 <= |r.actions| && Exists(r, t0, g, i)
    ensures Exists(r, t1, g, i) && r.states[t1].gens[g].cfg == r.states[t0].gens[g].cfg
  {
    var cfg := r.states[t0].gens[g].cfg;
    var inv := (s: Sys) => g < |s.gens| && i < |s.gens[g].entries| && s.gens[g].cfg == cfg;
    forall s, a | Ok(s) && Enabled(s, a) && inv(s) ensures inv(Next(s, a)) {
      ShapePersists(s, a, g);
    }
    InvariantFrom(r, t0, t1, inv);
  }

  /** Between two states the history of an entry grows by the report made. */
  ghost predicate Grows(r: Run, g: nat, i: nat, t: nat) {
    && t < |r.actions| && Exists(r, t, g, i) && Exists(r, t + 1, g, i)
    && At(r, t + 1, g, i).history == At(r, t, g, i).history + ReportMade(r.states[t], r.actions[t], g, i)
  }

  lemma StepGrows(r: Run, g: nat, i: nat, t: nat)
    requires IsRun(r) && t < |r.actions| && Exists(r, t, g, i)
    ensures Grows(r, g, i, t)
  {
    assert StepAt(r, t);
    EntriesPersist(r.states[t], r.actions[t], g, i);
  }

  lemma {:induction false} GrowthAddsUp(r: Run, g: nat, i: nat, t0: nat, t1: nat)
    requires t0 <= t1 <= |r.actions| < |r.states| && Exists(r, t0, g, i)
    requires forall t | t0 <= t < t1 :: Grows(r, g, i, t)
    ensures Exists(r, t1, g, i) && At(r, t1, g, i).history == At(r, t0, g, i).history + OwnReports(r, g, i, t0, t1)
    decreases t1 - t0
  {
    if t0 < t1 {
      GrowthAddsUp(r, g, i, t0, t1 - 1);
      assert Grows(r, g, i, t1 - 1);
    }
  }

  /** A manager's record grows by the reports of its own requests and probes and
      by nothing else: failures that cancelled probes or in-flight requests of a
      retired manager report never reach another one. */
  lemma OnlyOwnReportsArrive(r: Run, g: nat, i: nat, t0: nat, t1: nat)
    requires IsRun(r) && t0 <= t1 <= |r.actions| && Exists(r, t0, g, i)
    ensures Exists(r, t1, g, i)
    ensures At(r, t1, g, i).history == At(r, t0, g, i).history + OwnReports(r, g, i, t0, t1)
  {
    forall t | t0 <= t < t1 ensures Grows(r, g, i, t) {
      ManagersPersist(r, g, i, t0, t);
      StepGrows(r, g, i, t);
    }
    GrowthAddsUp(r, g, i, t0, t1);
  }

  // ----- What a reload carries over

  /** The reload in progress in `s` took, as its row k, what was there in `u`, where
      it was just about to take that row. */
  ghost predicate RowReadIn(s: Sys, k: nat, u: Sys) {
    && SameReload(u, s) && s.gens != []
    && k < |s.reload.rows| == |s.reload.histories| && |u.reload.rows| == k < |Current(u).entries|
    && s.reload.rows[k] == RowOf(Current(u).entries[k])
    && s.reload.histories[k] == Current(u).entries[k].history
  }

  /** Both are inside a reload to the same configuration from the same manager. */
  ghost predicate SameReload(u: Sys, s: Sys) {
    u.reload.Taking? && s.reload.Taking? && u.reload.next == s.reload.next && |u.gens| == |s.gens|
  }

  /** A step of a reload in progress appends a row just read, or keeps the rows. */
  ghost predicate RowsEvolve(s: Sys, s': Sys) {
    s'.reload.Taking? && s'.reload.rows != [] ==>
      && SameReload(s, s') && s.gens != []
      && |s.reload.rows| == |s.reload.histories| && |s'.reload.rows| == |s'.reload.histories|
      && (s'.reload == s.reload ||
          (&& |s.reload.rows| < |Current(s).entries|
           && s'.reload.rows == s.reload.rows + [RowOf(Current(s).entries[|s.reload.rows|])]
           && s'.reload.histories == s.reload.histories + [Current(s).entries[|s.reload.rows|].history]))
  }

  lemma StepEvolvesRows(s: Sys, a: Action)
    requires Ok(s) && Enabled(s, a)
    ensures RowsEvolve(s, Next(s, a))
  {
  }

  /** The same reload is in progress from u to t. */
  ghost predicate ReloadLasts(states: seq<Sys>, u: nat, t: nat)
    requires u <= t < |states|
  {
    forall v | u <= v <= t :: SameReload(states[v], states[t])
  }

  lemma {:induction false} RowsReadFrom(states: seq<Sys>, t: nat, k: nat) returns (u: nat)
    requires t < |states| && states[0].reload.Idle? && forall v | 0 <= v < t :: RowsEvolve(states[v], states[v + 1])
    requires states[t].reload.Taking? && k < |states[t].reload.rows|
    ensures u < t && RowReadIn(states[t], k, states[u]) && ReloadLasts(states, u, t)
    decreases t
  {
    assert RowsEvolve(states[t - 1], states[t]);
    if k < |states[t - 1].reload.rows| {
      u := RowsReadFrom(states, t - 1, k);
      assert SameReload(states[u], states[t - 1]);
    } else {
      u := t - 1;
    }
  }

  lemma StartsIdle(r: Run)
    requires IsRun(r)
    ensures r.states[0].reload.Idle? && r.states[0].rejected == 0
  {
  }

  /** Every row of a reload in progress was read during that very reload, at the
      moment the row was due. */
  lemma RowsAreReadings(r: Run, t: nat, k: nat) returns (u: nat)
    requires IsRun(r) && t < |r.states| && r.states[t].reload.Taking? && k < |r.states[t].reload.rows|
    ensures u < t && RowReadIn(r.states[t], k, r.states[u]) && ReloadLasts(r.states, u, t)
  {
    StartsIdle(r);
    forall v | 0 <= v < t ensures RowsEvolve(r.states[v], r.states[v + 1]) {
      assert StepAt(r, v);
      StepEvolvesRows(r.states[v], r.actions[v]);
    }
    u := RowsReadFrom(r.states, t, k);
  }

  ghost predicate RowsOk(s: Sys) {
    && s.gens != []
    && (s.reload.Taking? ==>
          && |s.reload.rows| <= |Current(s).cfg.upstreams|
          && forall k | 0 <= k < |s.reload.rows| :: Failover.SameServer(s.reload.rows[k], Current(s).cfg.upstreams[k]))
  }

  lemma StepKeepsRows(s: Sys, a: Action)
    requires Ok(s) && Enabled(s, a) && RowsOk(s)
    ensures RowsOk(Next(s, a))
  {
    assert GenOk(Current(s));
    if a.Step? {
      ShapePersists(s, a, |s.gens| - 1);
    }
  }

  lemma RunKeepsRows(r: Run, t: nat)
    requires IsRun(r) && t < |r.states|
    ensures RowsOk(r.states[t])
  {
    var inv := (s: Sys) => RowsOk(s);
    forall s, a | Ok(s) && Enabled(s, a) && inv(s) ensures inv(Next(s, a)) {
      StepKeepsRows(s, a);
    }
    InvariantOfRuns(r, t, inv);
  }

  /** The entry `e` of the new manager continues entry k of the old one as it
      stood in state `u`. */
  ghost predicate Continues(e: Entry, u: Sys, k: nat) {
    && u.gens != [] && k < |Current(u).entries|
    && e.health == Current(u).entries[k].health && e.history == Current(u).entries[k].history
  }

  lemma RowNamesDistinct(s: Sys)
    requires Ok(s) && Enabled(s, CommitReload) && RowsOk(s)
    ensures Failover.DistinctNames(s.reload.rows)
  {
    assert GenOk(Current(s));
  }

  /** A moment of the reload in progress at t at which entry k of the manager to be
      replaced stood as the entry `e` of the new one starts. */
  ghost predicate ContinuesSome(r: Run, t: nat, e: Entry, k: nat) {
    exists u :: 0 <= u < t < |r.states| && ReloadLasts(r.states, u, t) && Continues(e, r.states[u], k)
  }

  /** Upstream k of the current configuration is upstream j of the next one. */
  ghost predicate Carried(s: Sys, k: nat, j: nat)
    requires s.gens != [] && s.reload.Taking?
    requires k < |Current(s).cfg.upstreams| && j < |s.reload.next.upstreams|
  {
    var u, v := Current(s).cfg.upstreams[k], s.reload.next.upstreams[j];
    u.name == v.name && u.address == v.address && u.port == v.port && u.protocol == v.protocol
  }

  lemma CommitStep(s: Sys, j: nat)
    requires Ok(s) && Enabled(s, CommitReload) && RowsOk(s) && j < |s.reload.next.upstreams|
    ensures var s' := Next(s, CommitReload);
            && |s'.gens| == |s.gens| + 1 && s'.gens[..|s.gens|] == s.gens
            && Current(s').cfg == s.reload.next && Current(s').limit == 0
            && j < |Current(s').entries| && Current(s').entries[j].slots == 0
            && (forall k | 0 <= k < |s.reload.rows| && Carried(s, k, j) ::
                  && Current(s').entries[j].health == s.reload.rows[k].health
                  && Current(s').entries[j].history == s.reload.histories[k])
            && ((forall k | 0 <= k < |s.reload.rows| :: !Carried(s, k, j)) ==>
                  Current(s').entries[j].health == FRESH && Current(s').entries[j].history == [])
  {
    RowNamesDistinct(s);
    Failover.InheritsExactlyFromSameServer(s.reload.rows, s.reload.next.upstreams[j]);
    assert forall k | 0 <= k < |s.reload.rows| ::
        Failover.SameServer(s.reload.rows[k], s.reload.next.upstreams[j]) <==> Carried(s, k, j);
  }

  /** Reload carry-over, under concurrency: each upstream of the new
      configuration that agrees with one of the current manager in name,
      endpoint and protocol continues its record as it stood at some moment of
      this reload; every other one starts Unknown; slots and limit
      start empty, and no earlier snapshot changes. */
  lemma {:induction false} CommitCarriesOver(r: Run, t: nat, j: nat)
    requires IsRun(r) && t < |r.actions| && r.actions[t] == CommitReload
    requires r.states[t].reload.Taking? && j < |r.states[t].reload.next.upstreams|
    ensures StepAt(r, t)
    ensures var s, s' := r.states[t], r.states[t + 1];
            && |s'.gens| == |s.gens| + 1 && s'.gens[..|s.gens|] == s.gens
            && Current(s').cfg == s.reload.next && Current(s').limit == 0
            && j < |Current(s').entries| && Current(s').entries[j].slots == 0
            && (forall k | 0 <= k < |s.reload.rows| && Carried(s, k, j) ::
                  ContinuesSome(r, t, Current(s').entries[j], k))
            && ((forall k | 0 <= k < |s.reload.rows| :: !Carried(s, k, j)) ==>
                  Current(s').entries[j].health == FRESH && Current(s').entries[j].history == [])
            && |s.reload.rows| == |Current(s).cfg.upstreams|
  {
    assert StepAt(r, t);
    var s, s' := r.states[t], r.states[t + 1];
    assert GenOk(Current(s));
    RunKeepsRows(r, t);
    CommitStep(s, j);
    forall k | 0 <= k < |s.reload.rows| && Carried(s, k, j)
      ensures ContinuesSome(r, t, Current(s').entries[j], k)
    {
      var u := RowsAreReadings(r, t, k);
      assert Continues(Current(s').entries[j], r.states[u], k);
    }
  }

  // ----- What no reload changes

  ghost predicate BoundLikeFirst(s: Sys) {
    && s.gens != []
    && forall g | 0 <= g < |s.gens| ::
         var first, cfg := s.gens[0].cfg, s.gens[g].cfg;
         && cfg.listenAddr == first.listenAddr && cfg.listenPort == first.listenPort
         && cfg.statusSocket == first.statusSocket
  }

  lemma StepKeepsListener(s: Sys, a: Action)
    requires Ok(s) && Enabled(s, a) && BoundLikeFirst(s)
    ensures var s' := Next(s, a);
            && BoundLikeFirst(s') && s'.gens[0].cfg == s.gens[0].cfg
            && |s'.gens| - s'.accepted == |s.gens| - s.accepted
  {
    if a.Step? {
      MoveKeepsShape(s.gens[s.procs[a.p].gen], a.p, s.procs[a.p], a.move);
    }
  }

  /** Across every sequence of accepted and rejected reloads the listener and
      the status socket stay those bound at the start, and the snapshots made
      are counted by the accepted reloads. */
  lemma ReloadsKeepTheListener(r: Run, t: nat)
    requires IsRun(r) && t < |r.states|
    ensures r.states[0].gens != [] && BoundLikeFirst(r.states[t])
    ensures r.states[t].gens[0].cfg == r.states[0].gens[0].cfg
    ensures |r.states[t].gens| == r.states[t].accepted + 1
  {
    var inv := (s: Sys) => BoundLikeFirst(s) && |s.gens| == s.accepted + 1;
    forall s, a | Ok(s) && Enabled(s, a) && inv(s) ensures inv(Next(s, a)) {
      StepKeepsListener(s, a);
    }
    InvariantOfRuns(r, t, inv);
    RunKeepsOk(r, 0);
    assert GenOk(r.states[0].gens[0]);
    ManagersPersist(r, 0, 0, 0, t);
  }

  // ----- Rejected reloads leave no trace

  ghost function Unrejected(s: Sys): Sys {
    s.(rejected := 0)
  }

  lemma UnrejectedStep(s: Sys, a: Action)
    requires Ok(s) && Enabled(s, a)
    ensures Ok(Unrejected(s)) && Enabled(Unrejected(s), a)
    ensures a.RejectReload? ==> Unrejected(Next(s, a)) == Unrejected(s)
    ensures !a.RejectReload? ==> Unrejected(Next(s, a)) == Next(Unrejected(s), a)
  {
  }

  ghost function WithoutRejections(actions: seq<Action>): seq<Action> {
    if actions == [] then []
    else
      var last := actions[|actions| - 1];
      WithoutRejections(actions[..|actions| - 1]) + if last.RejectReload? then [] else [last]
  }

  ghost function Last(r: Run): Sys
    requires r.states != []
  {
    r.states[|r.states| - 1]
  }

  ghost function Before(r: Run): Run
    requires |r.states| == |r.actions| + 1 && r.actions != []
  {
    Run(r.states[..|r.actions|], r.actions[..|r.actions| - 1])
  }

  lemma RunPrefix(r: Run)
    requires IsRun(r) && r.actions != []
    ensures IsRun(Before(r))
  {
    var p := Before(r);
    forall t | 0 <= t < |p.actions| ensures StepAt(p, t) {
      assert StepAt(r, t);
    }
  }

  lemma LastStepTaken(r: Run)
    requires IsRun(r) && r.actions != []
    ensures var s, a := Last(Before(r)), r.actions[|r.actions| - 1];
            Ok(s) && Enabled(s, a) && Last(r) == Next(s, a)
  {
    assert StepAt(r, |r.actions| - 1);
  }

  ghost function Extended(r: Run, s: Sys, a: Action): Run {
    Run(r.states + [s], r.actions + [a])
  }

  lemma StepStays(r: Run, s: Sys, a: Action, t: nat)
    requires |r.states| == |r.actions| + 1 && t < |r.actions| && StepAt(r, t)
    ensures StepAt(Extended(r, s, a), t)
  {
  }

  lemma LastStep(r: Run, a: Action)
    requires |r.states| == |r.actions| + 1 && Ok(Last(r)) && Enabled(Last(r), a)
    ensures StepAt(Extended(r, Next(Last(r), a), a), |r.actions|)
  {
  }

  lemma StepsExtend(r: Run, s: Sys, a: Action)
    requires |r.states| == |r.actions| + 1 && StepAt(Extended(r, s, a), |r.actions|)
    requires forall t | 0 <= t < |r.actions| :: StepAt(r, t)
    ensures forall t | 0 <= t <= |r.actions| :: StepAt(Extended(r, s, a), t)
  {
    forall t | 0 <= t <= |r.actions| ensures StepAt(Extended(r, s, a), t) {
      if t < |r.actions| {
        StepStays(r, s, a, t);
      }
    }
  }

  lemma RunExtends(r: Run, s: Sys, a: Action)
    requires IsRun(r) && StepAt(Extended(r, s, a), |r.actions|)
    ensures IsRun(Extended(r, s, a))
  {
    StepsExtend(r, s, a);
    assert Extended(r, s, a).states[0] == r.states[0];
  }

  /** The erased run takes the next step of the run too, unless it is a rejection. */
  lemma ErasedStep(r: Run, s: Sys, a: Action) returns (r': Run)
    requires IsRun(r) && Ok(s) && Enabled(s, a) && Last(r) == Unrejected(s)
    ensures IsRun(r') && Last(r') == Unrejected(Next(s, a))
    ensures r'.actions == r.actions + if a.RejectReload? then [] else [a]
    ensures Next(s, a).rejected == s.rejected + if a.RejectReload? then 1 else 0
  {
    UnrejectedStep(s, a);
    if a.RejectReload? {
      r' := r;
    } else {
      LastStep(r, a);
      RunExtends(r, Next(Last(r), a), a);
      r' := Extended(r, Next(Last(r), a), a);
    }
  }

  lemma NothingErased(r: Run)
    requires IsRun(r) && r.actions == []
    ensures Last(r) == Unrejected(Last(r)) && Last(r).rejected == 0
  {
    StartsIdle(r);
  }

  lemma ErasedLast(r: Run, before: Run) returns (erased: Run)
    requires IsRun(r) && r.actions != [] && IsRun(before)
    requires before.actions == WithoutRejections(Before(r).actions) && Last(before) == Unrejected(Last(Before(r)))
    requires Last(Before(r)).rejected == |Before(r).actions| - |before.actions|
    ensures IsRun(erased) && erased.actions == WithoutRejections(r.actions)
    ensures Last(erased) == Unrejected(Last(r)) && Last(r).rejected == |r.actions| - |erased.actions|
  {
    LastStepTaken(r);
    erased := ErasedStep(before, Last(Before(r)), r.actions[|r.actions| - 1]);
  }

  /** Rejected reloads leave no trace: erasing them from a run gives a run that ends
      in the same snapshots, processes, reload and count of accepted reloads. */
  lemma {:induction false} RejectedReloadsLeaveNoTrace(r: Run) returns (erased: Run)
    requires IsRun(r)
    ensures IsRun(erased) && erased.actions == WithoutRejections(r.actions)
    ensures Last(erased) == Unrejected(Last(r)) && Last(r).rejected == |r.actions| - |erased.actions|
    decreases |r.actions|
  {
    if r.actions == [] {
      NothingErased(r);
      erased := r;
    } else {
      RunPrefix(r);
      var before := RejectedReloadsLeaveNoTrace(Before(r));
      erased := ErasedLast(r, before);
    }
  }
}
