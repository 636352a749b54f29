/** The cached active upstream and the "active upstream changed" lines, under
    every interleaving of reports and per-entry scans. */
module ProxyCache {
  import opened Wrappers
  import opened Health
  import opened Selection
  import opened Config
  import opened Proxy
  import Failover

  /** A process of generation g has changed a state and not yet begun to log it. */
  ghost predicate PendingIn(s: Sys, g: nat) {
    exists p :: 0 <= p < |s.procs| && s.procs[p].gen == g && s.procs[p].log.Pending?
  }

  ghost predicate LoggingIn(s: Sys, g: nat) {
    exists p :: 0 <= p < |s.procs| && s.procs[p].gen == g && !s.procs[p].log.Quiet?
  }

  function ActiveNow(g: Gen): string {
    ActiveOf(g, Flags(g))
  }

  /** The lock names the only process that is reading under it. */
  ghost predicate LockOk(s: Sys) {
    && (forall p | 0 <= p < |s.procs| && s.procs[p].log.Reading? ::
          s.procs[p].gen < |s.gens| && s.gens[s.procs[p].gen].lock == Some(p))
    && (forall g | 0 <= g < |s.gens| && s.gens[g].lock.Some? ::
          var p := s.gens[g].lock.value; p < |s.procs| && s.procs[p].gen == g && s.procs[p].log.Reading?)
  }

  /** With nobody pending, an unlocked cache is right and the holder of the lock
      has read what is there now. */
  ghost predicate CacheOkIn(s: Sys, g: nat)
    requires g < |s.gens| && LockOk(s)
  {
    !PendingIn(s, g) ==>
      match s.gens[g].lock
      case None => s.gens[g].lastActive == ActiveNow(s.gens[g])
      case Some(p) => s.procs[p].log.seen <= Flags(s.gens[g])
  }

  ghost predicate CacheOk(s: Sys) {
    LockOk(s) && forall g | 0 <= g < |s.gens| :: CacheOkIn(s, g)
  }

  /** Each line starts where the previous one ended and says a real change. */
  ghost predicate Chain(from: string, lines: seq<Failover.Line>, to: string) {
    && (lines == [] ==> from == to)
    && (lines != [] ==> lines[0].from == from && lines[|lines| - 1].to == to)
    && (forall k | 0 <= k < |lines| :: lines[k].from != lines[k].to)
    && (forall k | 0 < k < |lines| :: lines[k].from == lines[k - 1].to)
  }

  ghost predicate ChainsOk(s: Sys) {
    forall g | 0 <= g < |s.gens| :: Chain(s.gens[g].born, s.gens[g].lines, s.gens[g].lastActive)
  }

  // ----- Local facts about one step

  lemma MoveKeepsChain(g: Gen, p: nat, q: Proc, m: Move)
    requires ProcOk(g, q) && CanMove(g, p, q, m) && Chain(g.born, g.lines, g.lastActive)
    ensures var g' := Moved(g, p, q, m).0; Chain(g'.born, g'.lines, g'.lastActive)
  {
  }

  /** A step that changes a reading leaves its process pending. */
  lemma MoveKeepsFlagsOrPends(g: Gen, p: nat, q: Proc, m: Move)
    requires ProcOk(g, q) && CanMove(g, p, q, m)
    ensures var (g', q') := Moved(g, p, q, m);
            && |g'.entries| == |g.entries|
            && (q'.log.Pending? || Flags(g') == Flags(g))
            && (forall i | 0 <= i < |g.entries| :: g'.entries[i].up == g.entries[i].up)
  {
  }

  lemma SameFlagsSameActive(g: Gen, g': Gen)
    requires SameShape(g, g') && Flags(g') == Flags(g)
    ensures ActiveNow(g') == ActiveNow(g)
  {
    if g.entries != [] {
      ActiveMeaning(Flags(g));
    }
  }

  /** The end of a scan that saw what is there now makes the cache right. */
  lemma LoggedIsRight(g: Gen)
    requires GenOk(g)
    ensures Logged(g, Flags(g)).lastActive == ActiveNow(g) == ActiveNow(Logged(g, Flags(g)))
  {
    ActiveMeaning(Flags(g));
    var a := Select(Flags(g)).picks[0];
    assert g.entries[a].up == g.cfg.upstreams[a];
    SameFlagsSameActive(g, Logged(g, Flags(g)));
  }

  lemma MoveOfLock(g: Gen, p: nat, q: Proc, m: Move)
    requires ProcOk(g, q) && CanMove(g, p, q, m)
    ensures var (g', q') := Moved(g, p, q, m);
            && q'.gen == q.gen
            && (q'.log.Reading? <==> m.Lock? || m.LogRead?)
            && g'.lock == (if m.Lock? then Some(p) else if m.LogEnd? then None else g.lock)
  {
  }

  lemma LockKept(s: Sys, p: nat, m: Move)
    requires Ok(s) && Enabled(s, Step(p, m)) && LockOk(s)
    ensures LockOk(Next(s, Step(p, m)))
  {
    MoveOfLock(s.gens[s.procs[p].gen], p, s.procs[p], m);
  }

  lemma PendingAfterMove(s: Sys, p: nat, m: Move, g: nat)
    requires Ok(s) && Enabled(s, Step(p, m)) && !PendingIn(Next(s, Step(p, m)), g)
    ensures !PendingIn(s, g) || (s.procs[p].gen == g && m.Lock?)
  {
    var s' := Next(s, Step(p, m));
    MoveKeepsShape(s.gens[s.procs[p].gen], p, s.procs[p], m);
    if PendingIn(s, g) {
      var k :| 0 <= k < |s.procs| && s.procs[k].gen == g && s.procs[k].log.Pending?;
      assert s'.procs[k].gen == g;
    }
  }

  /** The end of a log step: the holder has read everything that is there now. */
  lemma CacheAfterLogEnd(s: Sys, p: nat)
    requires Ok(s) && Enabled(s, Step(p, LogEnd)) && CacheOk(s) && !PendingIn(s, s.procs[p].gen)
    ensures var g' := Next(s, Step(p, LogEnd)).gens[s.procs[p].gen]; g'.lock.None? && g'.lastActive == ActiveNow(g')
  {
    var g := s.gens[s.procs[p].gen];
    assert GenOk(g) && CacheOkIn(s, s.procs[p].gen);
    assert s.procs[p].log.seen == Flags(g);
    LoggedIsRight(g);
  }

  /** Any other step of a manager with nobody left pending keeps readings, cache
      and active upstream; what the holder of the lock has read stays right. */
  lemma CacheAfterQuietMove(s: Sys, p: nat, m: Move)
    requires Ok(s) && Enabled(s, Step(p, m)) && CacheOk(s) && !m.LogEnd? && !m.Lock?
    requires !Next(s, Step(p, m)).procs[p].log.Pending? && !PendingIn(s, s.procs[p].gen)
    ensures var s' := Next(s, Step(p, m)); LockOk(s') && CacheOkIn(s', s.procs[p].gen)
  {
    var q := s.procs[p];
    var g := s.gens[q.gen];
    var g' := Moved(g, p, q, m).0;
    LockKept(s, p, m);
    MoveOfLock(g, p, q, m);
    MoveKeepsFlagsOrPends(g, p, q, m);
    MoveKeepsShape(g, p, q, m);
    SameFlagsSameActive(g, g');
    QuietMoveKeepsCached(g, p, q, m);
    assert CacheOkIn(s, q.gen);
  }

  lemma QuietMoveKeepsCached(g: Gen, p: nat, q: Proc, m: Move)
    requires ProcOk(g, q) && CanMove(g, p, q, m) && !m.LogEnd? && !m.Lock?
    ensures var (g', q') := Moved(g, p, q, m);
            && g'.lastActive == g.lastActive
            && (q'.log.Reading? ==>
                  && q.log.Reading? && |q.log.seen| < |g.entries|
                  && q'.log.seen == q.log.seen + [Flags(g)[|q.log.seen|]])
  {
  }

  lemma CacheAfterOwnMove(s: Sys, p: nat, m: Move)
    requires Ok(s) && Enabled(s, Step(p, m)) && CacheOk(s)
    ensures var s' := Next(s, Step(p, m)); LockOk(s') && CacheOkIn(s', s.procs[p].gen)
  {
    var s' := Next(s, Step(p, m));
    LockKept(s, p, m);
    if !PendingIn(s', s.procs[p].gen) {
      GensAfterMove(s, p, m);
      assert !s'.procs[p].log.Pending?;
      PendingAfterMove(s, p, m, s.procs[p].gen);
      if m.LogEnd? {
        CacheAfterLogEnd(s, p);
      } else if !m.Lock? {
        CacheAfterQuietMove(s, p, m);
      }
    }
  }

  lemma CacheAfterOtherMove(s: Sys, p: nat, m: Move, g: nat)
    requires Ok(s) && Enabled(s, Step(p, m)) && CacheOk(s) && g < |s.gens| && g != s.procs[p].gen
    ensures var s' := Next(s, Step(p, m)); LockOk(s') && CacheOkIn(s', g)
  {
    var s' := Next(s, Step(p, m));
    LockKept(s, p, m);
    assert CacheOkIn(s, g);
    if !PendingIn(s', g) {
      PendingAfterMove(s, p, m, g);
    }
  }

  lemma CacheAfterSpawn(s: Sys, s': Sys, q: Proc, g: nat)
    requires CacheOk(s) && q.log.Quiet? && s'.procs == s.procs + [q] && |s'.gens| == |s.gens|
    requires forall k | 0 <= k < |s.gens| :: s'.gens[k] == s.gens[k].(limit := s'.gens[k].limit)
    requires g < |s.gens|
    ensures LockOk(s') && CacheOkIn(s', g)
  {
    assert CacheOkIn(s, g);
    if PendingIn(s, g) {
      var k :| 0 <= k < |s.procs| && s.procs[k].gen == g && s.procs[k].log.Pending?;
      assert s'.procs[k] == s.procs[k];
    }
    assert Flags(s'.gens[g]) == Flags(s.gens[g]);
  }

  /** Adding a generation, or changing only the reload, disturbs no cache. */
  lemma CacheFrame(s: Sys, s': Sys)
    requires CacheOk(s) && s'.procs == s.procs && s.gens <= s'.gens
    requires forall g | |s.gens| <= g < |s'.gens| ::
               s'.gens[g].lock.None? && s'.gens[g].lastActive == ActiveNow(s'.gens[g])
    ensures CacheOk(s')
  {
    assert LockOk(s');
    forall g | 0 <= g < |s'.gens| ensures CacheOkIn(s', g) {
      if g < |s.gens| {
        assert CacheOkIn(s, g);
      }
    }
  }

  lemma NewGenAgrees(cfg: Config, rows: seq<Failover.Row>, histories: seq<seq<Event>>)
    requires |rows| == |histories|
    ensures var g := NewGen(cfg, rows, histories); g.lastActive == ActiveNow(g) && Chain(g.born, g.lines, g.lastActive)
  {
    var g := NewGen(cfg, rows, histories);
    SameFlagsSameActive(g.(born := "", lastActive := ""), g);
  }

  lemma {:induction false} StepKeepsCache(s: Sys, a: Action)
    requires Ok(s) && Enabled(s, a) && CacheOk(s)
    ensures CacheOk(Next(s, a))
  {
    var s' := Next(s, a);
    match a {
      case Step(p, m) =>
        CacheAfterOwnMove(s, p, m);
        forall g | 0 <= g < |s'.gens| ensures CacheOkIn(s', g) {
          if g != s.procs[p].gen {
            CacheAfterOtherMove(s, p, m, g);
          }
        }
      case Admit(k) =>
        CacheAfterSpawn(s, s', Proc(k, Scanning([]), Quiet), k);
        forall g | 0 <= g < |s'.gens| ensures CacheOkIn(s', g) {
          CacheAfterSpawn(s, s', Proc(k, Scanning([]), Quiet), g);
        }
      case SpawnProbe(k, at) =>
        CacheAfterSpawn(s, s', Proc(k, Probing(at), Quiet), k);
        forall g | 0 <= g < |s'.gens| ensures CacheOkIn(s', g) {
          CacheAfterSpawn(s, s', Proc(k, Probing(at), Quiet), g);
        }
      case CommitReload =>
        NewGenAgrees(s.reload.next, s.reload.rows, s.reload.histories);
        CacheFrame(s, s');
      case _ => CacheFrame(s, s');
    }
  }

  lemma StepKeepsChains(s: Sys, a: Action)
    requires Ok(s) && Enabled(s, a) && ChainsOk(s)
    ensures ChainsOk(Next(s, a))
  {
    match a {
      case Step(p, m) => MoveKeepsChain(s.gens[s.procs[p].gen], p, s.procs[p], m);
      case CommitReload => NewGenAgrees(s.reload.next, s.reload.rows, s.reload.histories);
      case _ =>
    }
  }

  lemma InitialCache(cfg: Config)
    ensures CacheOk(Initial(cfg)) && ChainsOk(Initial(cfg))
  {
    NewGenAgrees(cfg, [], []);
  }

  lemma RunKeepsCache(r: Run, t: nat)
    requires IsRun(r) && t < |r.states|
    ensures CacheOk(r.states[t]) && ChainsOk(r.states[t])
  {
    var inv := (s: Sys) => CacheOk(s) && ChainsOk(s);
    forall cfg | WellFormed(cfg) ensures inv(Initial(cfg)) {
      InitialCache(cfg);
    }
    forall s, a | Ok(s) && Enabled(s, a) && inv(s) ensures inv(Next(s, a)) {
      StepKeepsCache(s, a);
      StepKeepsChains(s, a);
    }
    InvariantOfRuns(r, t, inv);
  }

  /** Cache agreement: in every state of every run, whenever no report of a
      manager sits between its state change and the end of its log step, the
      manager's cached active upstream is the first one in service, or the first of
      all when none is. */
  lemma CacheAgreesAtRest(r: Run, t: nat, g: nat)
    requires IsRun(r) && t < |r.states| && g < |r.states[t].gens|
    requires !LoggingIn(r.states[t], g)
    ensures var now := r.states[t].gens[g];
            && now.lastActive == ActiveNow(now)
            && exists a :: 0 <= a < |now.entries| && IsActive(Healths(now), a)
                           && now.lastActive == now.entries[a].up.name
  {
    RunKeepsCache(r, t);
    RunKeepsOk(r, t);
    assert CacheOkIn(r.states[t], g) && GenOk(r.states[t].gens[g]);
    ActiveIsFirst(r.states[t].gens[g]);
  }

  lemma ActiveIsFirst(g: Gen)
    requires g.entries != []
    ensures exists a :: 0 <= a < |g.entries| && IsActive(Healths(g), a) && ActiveNow(g) == g.entries[a].up.name
  {
    FirstPickIsActive(Healths(g));
  }

  /** The lines of a manager are a chain from its first active upstream to the
      cached one, and no line goes from an upstream to itself. */
  lemma LinesFormAChain(r: Run, t: nat, g: nat)
    requires IsRun(r) && t < |r.states| && g < |r.states[t].gens|
    ensures Chain(r.states[t].gens[g].born, r.states[t].gens[g].lines, r.states[t].gens[g].lastActive)
  {
    RunKeepsCache(r, t);
  }
}
