/** Which replies become reports: over every run, a client reports exactly the
    outcome of its own exchange. */
module ProxyReports {
  import opened Wrappers
  import opened Health
  import opened Selection
  import opened Config
  import opened Proxy
  import opened ProxyScan

  ghost predicate Own(a: Action, p: nat) {
    a.Step? && a.p == p
  }

  /** The outcome is what this reply must be reported as. */
  ghost predicate Reports(o: Outcome, reply: Reply, emergency: bool) {
    && (o.Failure? <==> reply.Error?) && (o.Success? <==> reply.Answer?)
    && (o.Success? ==> o.probe == emergency)
  }

  /** Process p exchanges with candidate k of its list and gets this reply. */
  ghost predicate Exchanges(s: Sys, a: Action, p: nat, c: Choice, k: nat, reply: Reply) {
    p < |s.procs| && s.procs[p].task == Holding(c, k) && a == Step(p, Exchange(reply))
  }

  // ----- One step, seen from one process

  lemma OthersLeaveIt(s: Sys, a: Action, p: nat)
    requires Ok(s) && Enabled(s, a) && p < |s.procs| && !Own(a, p)
    ensures p < |Next(s, a).procs| && Next(s, a).procs[p] == s.procs[p]
  {
  }

  /** A client is about to report only because an exchange just said so. */
  ghost predicate ReportArises(s: Sys, a: Action, s': Sys, p: nat) {
    p < |s'.procs| && s'.procs[p].task.Reporting? ==>
      var task := s'.procs[p].task;
      && p < |s.procs|
      && (s.procs[p].task == task ||
          (&& a.Step? && a.move.Exchange? && Exchanges(s, a, p, task.choice, task.pos, a.move.reply)
           && Reports(task.outcome, a.move.reply, task.choice.emergency)))
  }

  lemma MoveArises(g: Gen, p: nat, q: Proc, m: Move)
    requires ProcOk(g, q) && CanMove(g, p, q, m) && Moved(g, p, q, m).1.task.Reporting?
    ensures var task := Moved(g, p, q, m).1.task;
            q.task == task ||
            (&& m.Exchange? && q.task == Holding(task.choice, task.pos)
             && Reports(task.outcome, m.reply, task.choice.emergency))
  {
  }

  lemma StepArises(s: Sys, a: Action, p: nat)
    requires Ok(s) && Enabled(s, a)
    ensures ReportArises(s, a, Next(s, a), p)
  {
    if p < |s.procs| {
      if !Own(a, p) {
        OthersLeaveIt(s, a, p);
      } else if Next(s, a).procs[p].task.Reporting? {
        MoveArises(s.gens[s.procs[p].gen], p, s.procs[p], a.move);
      }
    }
  }

  // ----- Every report has its exchange

  lemma {:induction false} ReportTraced(r: Run, t: nat, p: nat) returns (u: nat)
    requires t < |r.states| == |r.actions| + 1 && r.states[0].procs == []
    requires forall v | 0 <= v < t :: ReportArises(r.states[v], r.actions[v], r.states[v + 1], p)
    requires p < |r.states[t].procs| && r.states[t].procs[p].task.Reporting?
    ensures u < t && r.actions[u].Step? && r.actions[u].move.Exchange?
    ensures var task, reply := r.states[t].procs[p].task, r.actions[u].move.reply;
            && Exchanges(r.states[u], r.actions[u], p, task.choice, task.pos, reply)
            && Reports(task.outcome, reply, task.choice.emergency)
    decreases t
  {
    assert ReportArises(r.states[t - 1], r.actions[t - 1], r.states[t], p);
    if r.states[t - 1].procs[p].task == r.states[t].procs[p].task {
      u := ReportTraced(r, t - 1, p);
    } else {
      u := t - 1;
    }
  }

  /** Whenever a client reports on candidate k of its list, it had an exchange with
      that candidate, and it reports a failure if and only if that was a transport
      error, a success if and only if it was an acceptable answer, counted if and
      only if the list was the emergency list. */
  lemma ReportsFollowExchanges(r: Run, t: nat, p: nat) returns (u: nat)
    requires IsRun(r) && t < |r.actions| && r.actions[t] == Step(p, Report)
    ensures p < |r.states[t].procs| && r.states[t].procs[p].task.Reporting?
    ensures u < t && r.actions[u].Step? && r.actions[u].move.Exchange?
    ensures var task, reply := r.states[t].procs[p].task, r.actions[u].move.reply;
            && Exchanges(r.states[u], r.actions[u], p, task.choice, task.pos, reply)
            && Reports(task.outcome, reply, task.choice.emergency)
  {
    assert StepAt(r, t);
    forall v | 0 <= v < t ensures ReportArises(r.states[v], r.actions[v], r.states[v + 1], p) {
      assert StepAt(r, v);
      StepArises(r.states[v], r.actions[v], p);
    }
    u := ReportTraced(r, t, p);
  }

  // ----- Every exchange has its report, or none

  /** What process p is and does at an own step. */
  ghost predicate Moves(s: Sys, s': Sys, p: nat, m: Move) {
    && p < |s.procs| && p < |s'.procs| && s.procs[p].gen < |s.gens|
    && var g, q := s.gens[s.procs[p].gen], s.procs[p];
       ProcOk(g, q) && CanMove(g, p, q, m) && s'.procs[p] == Moved(g, p, q, m).1
  }

  lemma OwnStep(r: Run, t: nat, p: nat, m: Move)
    requires IsRun(r) && t < |r.actions| && r.actions[t] == Step(p, m)
    ensures Moves(r.states[t], r.states[t + 1], p, m)
  {
    assert StepAt(r, t);
  }

  lemma Waits(r: Run, p: nat, u: nat, t: nat)
    requires IsRun(r) && u <= t < |r.states| && p < |r.states[u].procs|
    requires forall v | u <= v < t :: !Own(r.actions[v], p)
    ensures p < |r.states[t].procs| && r.states[t].procs[p] == r.states[u].procs[p]
  {
    var q := r.states[u].procs[p];
    var inv := (s: Sys) => p < |s.procs| && s.procs[p] == q;
    forall v | u <= v < t && inv(r.states[v]) ensures inv(r.states[v + 1]) {
      assert StepAt(r, v);
      OthersLeaveIt(r.states[v], r.actions[v], p);
    }
    HoldsThroughout(r.states, u, t, inv);
  }

  ghost function OutcomeOf(reply: Reply, emergency: bool): Outcome {
    if reply.Error? then Failure else Success(emergency)
  }

  lemma ExchangeThenReport(g: Gen, p: nat, q: Proc, reply: Reply, g': Gen, m: Move)
    requires ProcOk(g, q) && CanMove(g, p, q, Exchange(reply)) && !reply.Refused?
    requires var q1 := Moved(g, p, q, Exchange(reply)).1; ProcOk(g', q1) && CanMove(g', p, q1, m)
    ensures var c, k := q.task.choice, q.task.pos;
            var q1 := Moved(g, p, q, Exchange(reply)).1;
            && m.Report? && q1.task == Reporting(c, k, OutcomeOf(reply, c.emergency))
            && Moved(g', p, q1, m).1.task == if reply.Error? then Trying(c, k + 1) else Returning(None)
  {
  }

  /** After a transport error or an acceptable answer the client's next own step is
      the report of just that; after it, an error leads on to the next candidate
      and an answer ends the request. */
  lemma NextMoveIsTheReport(r: Run, u: nat, t: nat, p: nat, reply: Reply, m: Move)
    requires IsRun(r) && u < t < |r.actions| && r.actions[u] == Step(p, Exchange(reply)) && !reply.Refused?
    requires r.actions[t] == Step(p, m) && forall v | u < v < t :: !Own(r.actions[v], p)
    ensures p < |r.states[u].procs| && r.states[u].procs[p].task.Holding?
    ensures p < |r.states[t].procs| && p < |r.states[t + 1].procs|
    ensures var c, k := r.states[u].procs[p].task.choice, r.states[u].procs[p].task.pos;
            && m.Report? && r.states[t].procs[p].task == Reporting(c, k, OutcomeOf(reply, c.emergency))
            && r.states[t + 1].procs[p].task == if reply.Error? then Trying(c, k + 1) else Returning(None)
  {
    OwnStep(r, u, p, Exchange(reply));
    OwnStep(r, t, p, m);
    Waits(r, p, u + 1, t);
    var s, s1 := r.states[u], r.states[t];
    ExchangeThenReport(s.gens[s.procs[p].gen], p, s.procs[p], reply, s1.gens[s1.procs[p].gen], m);
  }

  /** Every list is strictly increasing, so no upstream is on it twice. */
  ghost predicate ListOk(t: Task) {
    ChoiceOf(t).Some? ==> Increasing(ChoiceOf(t).value.picks)
  }

  lemma MoveKeepsList(g: Gen, p: nat, q: Proc, m: Move)
    requires ProcOk(g, q) && CanMove(g, p, q, m) && ListOk(q.task)
    ensures ListOk(Moved(g, p, q, m).1.task)
  {
    if m.EndScan? {
      SelectMeaning(q.task.seen);
    }
  }

  lemma ListsStayOk(r: Run, t: nat, p: nat)
    requires IsRun(r) && t < |r.states| && p < |r.states[t].procs|
    ensures ListOk(r.states[t].procs[p].task)
  {
    var inv := (s: Sys) => forall k | 0 <= k < |s.procs| :: ListOk(s.procs[k].task);
    forall s, a | Ok(s) && Enabled(s, a) && inv(s) ensures inv(Next(s, a)) {
      forall k | 0 <= k < |Next(s, a).procs| ensures ListOk(Next(s, a).procs[k].task) {
        if k < |s.procs| && Own(a, k) {
          MoveKeepsList(s.gens[s.procs[k].gen], k, s.procs[k], a.move);
        } else if k < |s.procs| {
          OthersLeaveIt(s, a, k);
        }
      }
    }
    InvariantOfRuns(r, t, inv);
  }

  /** The client is past candidate k of list c for good. */
  ghost predicate Beyond(t: Task, c: Choice, k: nat) {
    match t
    case Scanning(_) => false
    case Trying(d, pos) => d == c && pos > k
    case Holding(d, pos) => d == c && pos > k
    case Reporting(d, pos, _) => d == c && pos > k
    case _ => true
  }

  lemma MoveStaysBeyond(g: Gen, p: nat, q: Proc, m: Move, c: Choice, k: nat)
    requires ProcOk(g, q) && CanMove(g, p, q, m) && Beyond(q.task, c, k)
    ensures Beyond(Moved(g, p, q, m).1.task, c, k)
  {
  }

  lemma StaysBeyond(r: Run, u: nat, t: nat, p: nat, c: Choice, k: nat)
    requires IsRun(r) && u <= t < |r.states| && p < |r.states[u].procs| && Beyond(r.states[u].procs[p].task, c, k)
    ensures p < |r.states[t].procs| && Beyond(r.states[t].procs[p].task, c, k)
  {
    var inv := (s: Sys) => p < |s.procs| && Beyond(s.procs[p].task, c, k);
    forall s, a | Ok(s) && Enabled(s, a) && inv(s) ensures inv(Next(s, a)) {
      if Own(a, p) {
        MoveStaysBeyond(s.gens[s.procs[p].gen], p, s.procs[p], a.move, c, k);
      } else {
        OthersLeaveIt(s, a, p);
      }
    }
    InvariantFrom(r, u, t, inv);
  }

  /** A SERVFAIL or REFUSED leads straight on to the next candidate, and the client
      never reports on the upstream that gave it. */
  lemma RefusalIsNeverReported(r: Run, u: nat, t: nat, p: nat)
    requires IsRun(r) && u < t < |r.actions|
    requires r.actions[u] == Step(p, Exchange(Refused)) && r.actions[t] == Step(p, Report)
    ensures p < |r.states[u].procs| && p < |r.states[u + 1].procs| && p < |r.states[t].procs|
    ensures r.states[u].procs[p].task.Holding? && r.states[t].procs[p].task.Reporting?
    ensures var c, k := r.states[u].procs[p].task.choice, r.states[u].procs[p].task.pos;
            var task := r.states[t].procs[p].task;
            && r.states[u + 1].procs[p].task == Trying(c, k + 1)
            && task.choice == c && k < task.pos < |c.picks| && c.picks[task.pos] != c.picks[k]
  {
    OwnStep(r, u, p, Exchange(Refused));
    OwnStep(r, t, p, Report);
    var task := r.states[u].procs[p].task;
    StaysBeyond(r, u + 1, t, p, task.choice, task.pos);
    ListsStayOk(r, t, p);
  }

  // ----- Probes

  /** A probe process comes from the spawn of a probe of just that upstream. */
  ghost predicate ProbeArises(s: Sys, a: Action, s': Sys, p: nat) {
    p < |s'.procs| && s'.procs[p].task.Probing? ==>
      || (p < |s.procs| && s.procs[p] == s'.procs[p])
      || (p == |s.procs| && a == SpawnProbe(s'.procs[p].gen, s'.procs[p].task.at))
  }

  lemma MoveEndsProbe(g: Gen, p: nat, q: Proc, m: Move)
    requires ProcOk(g, q) && CanMove(g, p, q, m) && Moved(g, p, q, m).1.task.Probing?
    ensures q.task == Moved(g, p, q, m).1.task && !q.log.Quiet?
  {
  }

  ghost predicate ProbesQuiet(s: Sys) {
    forall p | 0 <= p < |s.procs| :: s.procs[p].task.Probing? ==> s.procs[p].log.Quiet?
  }

  lemma StepKeepsProbesQuiet(s: Sys, a: Action)
    requires Ok(s) && Enabled(s, a) && ProbesQuiet(s)
    ensures ProbesQuiet(Next(s, a))
    ensures forall p: nat :: ProbeArises(s, a, Next(s, a), p)
  {
    var s' := Next(s, a);
    forall p: nat | p < |s'.procs|
      ensures (s'.procs[p].task.Probing? ==> s'.procs[p].log.Quiet?) && ProbeArises(s, a, s', p)
    {
      if p < |s.procs| && Own(a, p) {
        if s'.procs[p].task.Probing? {
          MoveEndsProbe(s.gens[s.procs[p].gen], p, s.procs[p], a.move);
        }
      } else if p < |s.procs| {
        OthersLeaveIt(s, a, p);
      }
    }
  }

  lemma RunKeepsProbesQuiet(r: Run, t: nat)
    requires IsRun(r) && t < |r.states|
    ensures ProbesQuiet(r.states[t])
  {
    var inv := (s: Sys) => ProbesQuiet(s);
    forall s, a | Ok(s) && Enabled(s, a) && inv(s) ensures inv(Next(s, a)) {
      StepKeepsProbesQuiet(s, a);
    }
    InvariantOfRuns(r, t, inv);
  }

  lemma {:induction false} ProbeTraced(r: Run, t: nat, p: nat) returns (u: nat)
    requires t < |r.states| == |r.actions| + 1 && r.states[0].procs == []
    requires forall v | 0 <= v < t :: ProbeArises(r.states[v], r.actions[v], r.states[v + 1], p)
    requires p < |r.states[t].procs| && r.states[t].procs[p].task.Probing?
    ensures u < t && p == |r.states[u].procs|
    ensures r.actions[u] == SpawnProbe(r.states[t].procs[p].gen, r.states[t].procs[p].task.at)
    decreases t
  {
    assert ProbeArises(r.states[t - 1], r.actions[t - 1], r.states[t], p);
    if p < |r.states[t - 1].procs| {
      u := ProbeTraced(r, t - 1, p);
    } else {
      u := t - 1;
    }
  }

  /** A probe that ends reports once, to the upstream and the manager it was made
      for: a counted success if it was answered, otherwise a failure. */
  lemma ProbesReportWhereTheyBelong(r: Run, t: nat, p: nat, ok: bool) returns (u: nat)
    requires IsRun(r) && t < |r.actions| && r.actions[t] == Step(p, ProbeDone(ok))
    ensures u < t && p == |r.states[u].procs| && p < |r.states[t].procs| && r.actions[u].SpawnProbe?
    ensures var g, i := r.actions[u].g, r.actions[u].at;
            && r.states[t].procs[p].gen == g
            && g < |r.states[t].gens| && i < |r.states[t].gens[g].entries|
            && |r.states[t + 1].gens| == |r.states[t].gens|
            && (forall k | 0 <= k < |r.states[t].gens| && k != g :: r.states[t + 1].gens[k] == r.states[t].gens[k])
            && r.states[t + 1].gens[g].entries ==
               r.states[t].gens[g].entries[i := Recorded(r.states[t].gens[g].entries[i], r.states[t].gens[g].cfg,
                                                         if ok then Success(true) else Failure)]
            && p < |r.states[t + 1].procs| && r.states[t + 1].procs[p].task.Finished?
  {
    assert StepAt(r, t);
    forall v | 0 <= v < t ensures ProbeArises(r.states[v], r.actions[v], r.states[v + 1], p) {
      assert StepAt(r, v);
      RunKeepsProbesQuiet(r, v);
      StepKeepsProbesQuiet(r.states[v], r.actions[v]);
    }
    u := ProbeTraced(r, t, p);
  }
}
