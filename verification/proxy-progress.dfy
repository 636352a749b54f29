/** No run gets stuck: whatever is unfinished can go on, or waits for somebody who can. */
module ProxyProgress {
  import opened Wrappers
  import opened Selection
  import opened Config
  import opened Proxy
  import opened ProxySlots
  import ProxyCache

  ghost predicate CanStep(s: Sys, p: nat)
    requires Ok(s)
  {
    exists m: Move :: Enabled(s, Step(p, m))
  }

  /** A process in the middle of its log step can read the next entry or finish. */
  lemma ReaderGoesOn(s: Sys, p: nat)
    requires Ok(s) && p < |s.procs| && s.procs[p].log.Reading?
    ensures CanStep(s, p)
  {
    var q := s.procs[p];
    var g := s.gens[q.gen];
    assert ProcOk(g, q);
    if |q.log.seen| < |g.entries| {
      assert Enabled(s, Step(p, LogRead));
    } else {
      assert Enabled(s, Step(p, LogEnd));
    }
  }

  /** What a process that is not logging can do next: a scan reads the next entry or
      selects; a client at the top of the loop can give up; one with a slot can get
      any reply or run out of time; a report, a return and either outcome of a probe
      are never held up. */
  ghost predicate Free(s: Sys, p: nat)
    requires Ok(s) && p < |s.procs|
  {
    var q := s.procs[p];
    match q.task
    case Scanning(seen) =>
      Enabled(s, Step(p, if |seen| < |s.gens[q.gen].entries| then ReadFlag else EndScan))
    case Trying(_, _) => Enabled(s, Step(p, Expire))
    case Holding(_, _) => Enabled(s, Step(p, Overrun)) && forall reply :: Enabled(s, Step(p, Exchange(reply)))
    case Reporting(_, _, _) => Enabled(s, Step(p, Report))
    case Returning(_) => Enabled(s, Step(p, Return))
    case Probing(_) => forall ok :: Enabled(s, Step(p, ProbeDone(ok)))
    case Finished(_) => true
  }

  /** Whoever holds a slot or a limit token finds it there to give back. */
  ghost predicate Backed(s: Sys, p: nat)
    requires Ok(s) && p < |s.procs|
  {
    var q := s.procs[p];
    && (q.task.Holding? ==> s.gens[q.gen].entries[q.task.choice.picks[q.task.pos]].slots > 0)
    && (q.task.Returning? ==> s.gens[q.gen].limit > 0)
  }

  lemma BackedIsFree(s: Sys, p: nat)
    requires Ok(s) && p < |s.procs| && s.procs[p].log.Quiet? && Backed(s, p)
    ensures Free(s, p)
  {
    assert ProcOk(s.gens[s.procs[p].gen], s.procs[p]);
  }

  lemma QuietIsFree(r: Run, t: nat, p: nat)
    requires IsRun(r) && t < |r.states| && p < |r.states[t].procs| && r.states[t].procs[p].log.Quiet?
    ensures Ok(r.states[t]) && Free(r.states[t], p)
  {
    ReleaseNeverBlocks(r, t, p);
    BackedIsFree(r.states[t], p);
  }

  lemma FreeCanStep(s: Sys, p: nat)
    requires Ok(s) && p < |s.procs| && Free(s, p) && !s.procs[p].task.Finished?
    ensures CanStep(s, p)
  {
    match s.procs[p].task
    case Scanning(seen) =>
      assert Enabled(s, Step(p, if |seen| < |s.gens[s.procs[p].gen].entries| then ReadFlag else EndScan));
    case Trying(_, _) => assert Enabled(s, Step(p, Expire));
    case Holding(_, _) => assert Enabled(s, Step(p, Overrun));
    case Reporting(_, _, _) => assert Enabled(s, Step(p, Report));
    case Returning(_) => assert Enabled(s, Step(p, Return));
    case Probing(_) => assert Enabled(s, Step(p, ProbeDone(true)));
  }

  /** In every state of every run each process is finished, or can take a step, or
      waits for the log lock of its manager while its holder can take a step. */
  lemma NobodyIsStuck(r: Run, t: nat, p: nat)
    requires IsRun(r) && t < |r.states| && p < |r.states[t].procs|
    ensures Ok(r.states[t])
    ensures var s := r.states[t]; var q := s.procs[p];
            || (q.task.Finished? && q.log.Quiet?)
            || CanStep(s, p)
            || (q.log.Pending? && q.gen < |s.gens| && s.gens[q.gen].lock.Some? && CanStep(s, s.gens[q.gen].lock.value))
  {
    RunKeepsOk(r, t);
    var s := r.states[t];
    var q := s.procs[p];
    match q.log {
      case Quiet =>
        QuietIsFree(r, t, p);
        if !q.task.Finished? {
          FreeCanStep(s, p);
        }
      case Reading(_) => ReaderGoesOn(s, p);
      case Pending =>
        if s.gens[q.gen].lock.None? {
          assert Enabled(s, Step(p, Lock));
        } else {
          ProxyCache.RunKeepsCache(r, t);
          ReaderGoesOn(s, s.gens[q.gen].lock.value);
        }
    }
  }

  /** A reload in progress takes its next row or, with all rows taken, commits; with
      none in progress, a new one is rejected or begun, and it can begin exactly for
      a well-formed configuration with the listener and the socket of the current. */
  lemma ReloadGoesOn(r: Run, t: nat, next: Config)
    requires IsRun(r) && t < |r.states|
    ensures Ok(r.states[t])
    ensures var s := r.states[t];
            if s.reload.Taking? then
              Enabled(s, if |s.reload.rows| < |Current(s).cfg.upstreams| then TakeRow else CommitReload)
            else
              && Enabled(s, RejectReload)
              && (Enabled(s, BeginReload(next)) <==>
                  && WellFormed(next) && next.listenAddr == Current(s).cfg.listenAddr
                  && next.listenPort == Current(s).cfg.listenPort && next.statusSocket == Current(s).cfg.statusSocket)
  {
    RunKeepsOk(r, t);
    assert GenOk(Current(r.states[t]));
  }
}
