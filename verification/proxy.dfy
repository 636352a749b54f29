/** The running daemon as a step system: client requests, background probes and
    reloads interleave at the granularity of the source's critical sections and
    channel operations (internal/failover/state.go, internal/dnsserver/server.go,
    internal/health/scheduler.go, internal/runtimecfg/store.go and the reload
    branch of cmd/failsafe-dns-proxy/main.go). */
module Proxy {
  import opened Wrappers
  import opened Health
  import opened Selection
  import opened Config
  import RuntimeConfig
  import Failover

  // ----- State

  /** One upstream inside one manager. `history` is a history variable: every
      report that led to `health`, also those inherited at a reload. */
  datatype Entry = Entry(up: Upstream, health: Snapshot, history: seq<Event>, slots: nat)

  /** A configuration snapshot with its manager and admission limit. `born` is
      the first value of `lastActive`; `lock` is the holder of activeMu. */
  datatype Gen = Gen(
    cfg: Config, entries: seq<Entry>, limit: nat,
    born: string, lastActive: string, lines: seq<Failover.Line>, lock: Option<nat>)

  datatype Task =
    | Scanning(seen: seq<bool>)                               // a client inside Candidates
    | Trying(choice: Choice, pos: nat)                        // at the top of the loop, or waiting for a slot
    | Holding(choice: Choice, pos: nat)                       // slot taken
    | Reporting(choice: Choice, pos: nat, outcome: Outcome)   // slot released, outcome not yet recorded
    | Returning(leak: Option<nat>)                            // resolve is over, the limit token is still held
    | Finished(leak: Option<nat>)
    | Probing(at: nat)                                        // a background probe

  /** Where a process is between a state change and the end of its log step. */
  datatype Log = Quiet | Pending | Reading(seen: seq<bool>)

  datatype Proc = Proc(gen: nat, task: Task, log: Log)

  datatype Reload = Idle | Taking(next: Config, rows: seq<Failover.Row>, histories: seq<seq<Event>>)

  datatype Sys = Sys(gens: seq<Gen>, procs: seq<Proc>, reload: Reload, accepted: nat, rejected: nat)

  // ----- Steps of one process: they touch that process and its own generation

  datatype Reply = Error | Refused | Answer

  datatype Move =
    | Malformed | ReadFlag | EndScan | Expire | Acquire | Overrun | Exchange(reply: Reply)
    | Report | Return | ProbeDone(ok: bool) | Lock | LogRead | LogEnd

  function Flag(e: Entry): bool {
    !e.health.state.Out()
  }

  function Healths(g: Gen): seq<Snapshot> {
    seq(|g.entries|, i requires 0 <= i < |g.entries| => g.entries[i].health)
  }

  function Flags(g: Gen): seq<bool> {
    InService(Healths(g))
  }

  /** The active upstream's name, given one reading per entry. */
  function ActiveOf(g: Gen, flags: seq<bool>): string
    requires |flags| == |g.entries|
  {
    if flags == [] then ""
    else
      ActiveMeaning(flags);
      g.entries[Select(flags).picks[0]].up.name
  }

  ghost predicate TaskOk(n: nat, t: Task) {
    match t
    case Scanning(seen) => |seen| <= n
    case Trying(c, pos) => InRange(c.picks, n) && pos <= |c.picks|
    case Holding(c, pos) => InRange(c.picks, n) && pos < |c.picks|
    case Reporting(c, pos, _) => InRange(c.picks, n) && pos < |c.picks|
    case Returning(leak) => leak.Some? ==> leak.value < n
    case Finished(leak) => leak.Some? ==> leak.value < n
    case Probing(at) => at < n
  }

  ghost predicate ProcOk(g: Gen, q: Proc) {
    TaskOk(|g.entries|, q.task) && (q.log.Reading? ==> |q.log.seen| <= |g.entries|)
  }

  ghost predicate CanMove(g: Gen, p: nat, q: Proc, m: Move)
    requires ProcOk(g, q)
  {
    match m
    case Lock => q.log.Pending? && g.lock.None?
    case LogRead => q.log.Reading? && |q.log.seen| < |g.entries|
    case LogEnd => q.log.Reading? && |q.log.seen| == |g.entries|
    case Malformed => q.log.Quiet? && q.task == Scanning([])
    case ReadFlag => q.log.Quiet? && q.task.Scanning? && |q.task.seen| < |g.entries|
    case EndScan => q.log.Quiet? && q.task.Scanning? && |q.task.seen| == |g.entries|
    case Expire => q.log.Quiet? && q.task.Trying?
    case Acquire => q.log.Quiet? && q.task.Trying? && q.task.pos < |q.task.choice.picks|
                    && g.entries[q.task.choice.picks[q.task.pos]].slots < Failover.SLOTS
    case Overrun => q.log.Quiet? && q.task.Holding?
    case Exchange(_) => q.log.Quiet? && q.task.Holding? && g.entries[q.task.choice.picks[q.task.pos]].slots > 0
    case Report => q.log.Quiet? && q.task.Reporting?
    case Return => q.log.Quiet? && q.task.Returning? && g.limit > 0
    case ProbeDone(_) => q.log.Quiet? && q.task.Probing?
  }

  function WithSlots(g: Gen, i: nat, slots: nat): Gen
    requires i < |g.entries|
  {
    g.(entries := g.entries[i := g.entries[i].(slots := slots)])
  }

  /** RecordSuccess or RecordFailure up to the unlock of the entry. */
  function Recorded(e: Entry, cfg: Config, o: Outcome): Entry {
    e.(health := Record(e.health, o, cfg.failThreshold, cfg.recoverThreshold),
    history := e.history + [Event(o, cfg.failThreshold, cfg.recoverThreshold)])
  }

  function RecordAt(g: Gen, i: nat, o: Outcome): Gen
    requires i < |g.entries|
  {
    g.(entries := g.entries[i := Recorded(g.entries[i], g.cfg, o)])
  }

  /** logTransition goes on to the log only when the state changed. */
  function LogAfter(g: Gen, i: nat, o: Outcome): Log
    requires i < |g.entries|
  {
    if Recorded(g.entries[i], g.cfg, o).health.state == g.entries[i].health.state then Quiet else Pending
  }

  /** The end of logActiveChange, with the readings it took. */
  function Logged(g: Gen, seen: seq<bool>): Gen
    requires |seen| == |g.entries|
  {
    var active := ActiveOf(g, seen);
    if active == "" || active == g.lastActive then g.(lock := None)
    else g.(lock := None, lastActive := active, lines := g.lines + [Failover.Line(g.lastActive, active)])
  }

  ghost function Moved(g: Gen, p: nat, q: Proc, m: Move): (r: (Gen, Proc))
    requires ProcOk(g, q) && CanMove(g, p, q, m)
  {
    match m
    case Malformed => (g, q.(task := Returning(None)))
    case ReadFlag => (g, q.(task := Scanning(q.task.seen + [Flag(g.entries[|q.task.seen|])])))
    case EndScan => (g, q.(task := Trying(Select(q.task.seen), 0)))
    case Expire => (g, q.(task := Returning(None)))
    case Acquire =>
      var at := q.task.choice.picks[q.task.pos];
      (WithSlots(g, at, g.entries[at].slots + 1), q.(task := Holding(q.task.choice, q.task.pos)))
    case Overrun => (g, q.(task := Returning(Some(q.task.choice.picks[q.task.pos]))))
    case Exchange(reply) =>
      var c, pos := q.task.choice, q.task.pos;
      var at := c.picks[pos];
      (WithSlots(g, at, g.entries[at].slots - 1),
       q.(task := match reply
                  case Error => Reporting(c, pos, Failure)
                  case Refused => Trying(c, pos + 1)
                  case Answer => Reporting(c, pos, Success(c.emergency))))
    case Report =>
      var c, pos, o := q.task.choice, q.task.pos, q.task.outcome;
      var at := c.picks[pos];
      (RecordAt(g, at, o),
       Proc(q.gen, if o.Failure? then Trying(c, pos + 1) else Returning(None), LogAfter(g, at, o)))
    case Return => (g.(limit := g.limit - 1), q.(task := Finished(q.task.leak)))
    case ProbeDone(ok) =>
      var o := if ok then Success(true) else Failure;
      (RecordAt(g, q.task.at, o), Proc(q.gen, Finished(None), LogAfter(g, q.task.at, o)))
    case Lock => (g.(lock := Some(p)), q.(log := Reading([])))
    case LogRead => (g, q.(log := Reading(q.log.seen + [Flag(g.entries[|q.log.seen|])])))
    case LogEnd => (Logged(g, q.log.seen), q.(log := Quiet))
  }

  // ----- Steps of the system

  datatype Action =
    | Step(p: nat, move: Move)
    | Admit(g: nat)                  // a handler that loaded snapshot g gets a limit token
    | SpawnProbe(g: nat, at: nat)
    | RejectReload
    | BeginReload(next: Config)
    | TakeRow
    | CommitReload

  ghost predicate GenOk(g: Gen) {
    && WellFormed(g.cfg)
    && |g.entries| == |g.cfg.upstreams|
    && forall i | 0 <= i < |g.entries| :: g.entries[i].up == g.cfg.upstreams[i]
  }

  ghost predicate ReloadOk(s: Sys)
    requires s.gens != []
  {
    s.reload.Taking? ==>
      && WellFormed(s.reload.next) && RuntimeConfig.Compatible(Current(s).cfg, s.reload.next)
      && |s.reload.rows| == |s.reload.histories| <= |Current(s).entries|
  }

  function Current(s: Sys): Gen
    requires s.gens != []
  {
    s.gens[|s.gens| - 1]
  }

  /** Every process has a manager and fits it. */
  ghost predicate ProcsOk(gens: seq<Gen>, procs: seq<Proc>) {
    forall p | 0 <= p < |procs| :: procs[p].gen < |gens| && ProcOk(gens[procs[p].gen], procs[p])
  }

  ghost predicate Ok(s: Sys) {
    && s.gens != []
    && (forall g | 0 <= g < |s.gens| :: GenOk(s.gens[g]))
    && ProcsOk(s.gens, s.procs)
    && ReloadOk(s)
  }

  ghost predicate Enabled(s: Sys, a: Action)
    requires Ok(s)
  {
    match a
    case Step(p, m) => p < |s.procs| && CanMove(s.gens[s.procs[p].gen], p, s.procs[p], m)
    case Admit(g) => g < |s.gens| && s.gens[g].limit < s.gens[g].cfg.maxConcurrent
    case SpawnProbe(g, at) => g < |s.gens| && at < |s.gens[g].entries|
    case RejectReload => s.reload.Idle?
    case BeginReload(next) => s.reload.Idle? && WellFormed(next) && RuntimeConfig.Compatible(Current(s).cfg, next)
    case TakeRow => s.reload.Taking? && |s.reload.rows| < |Current(s).entries|
    case CommitReload => s.reload.Taking? && |s.reload.rows| == |Current(s).entries|
  }

  function RowOf(e: Entry): Failover.Row {
    Failover.RowFor(e.up, e.health)
  }

  function InheritedEntry(rows: seq<Failover.Row>, histories: seq<seq<Event>>, u: Upstream): Entry
    requires |rows| == |histories|
  {
    match Failover.Source(rows, u)
    case None => Entry(u, FRESH, [], 0)
    case Some(k) => Entry(u, rows[k].health, histories[k], 0)
  }

  function NewGen(cfg: Config, rows: seq<Failover.Row>, histories: seq<seq<Event>>): Gen
    requires |rows| == |histories|
  {
    var us := cfg.upstreams;
    var entries := seq(|us|, i requires 0 <= i < |us| => InheritedEntry(rows, histories, us[i]));
    var g := Gen(cfg, entries, 0, "", "", [], None);
    var active := ActiveOf(g, Flags(g));
    g.(born := active, lastActive := active)
  }

  function Initial(cfg: Config): Sys {
    Sys([NewGen(cfg, [], [])], [], Idle, 0, 0)
  }

  ghost function Next(s: Sys, a: Action): Sys
    requires Ok(s) && Enabled(s, a)
  {
    match a
    case Step(p, m) =>
      var q := s.procs[p];
      var r := Moved(s.gens[q.gen], p, q, m);
      s.(gens := s.gens[q.gen := r.0], procs := s.procs[p := r.1])
    case Admit(g) =>
      s.(gens := s.gens[g := s.gens[g].(limit := s.gens[g].limit + 1)],
         procs := s.procs + [Proc(g, Scanning([]), Quiet)])
    case SpawnProbe(g, at) => s.(procs := s.procs + [Proc(g, Probing(at), Quiet)])
    case RejectReload => s.(rejected := s.rejected + 1)
    case BeginReload(next) => s.(reload := Taking(next, [], []))
    case TakeRow =>
      var e := Current(s).entries[|s.reload.rows|];
      s.(reload := s.reload.(rows := s.reload.rows + [RowOf(e)], histories := s.reload.histories + [e.history]))
    case CommitReload =>
      s.(gens := s.gens + [NewGen(s.reload.next, s.reload.rows, s.reload.histories)], reload := Idle,
         accepted := s.accepted + 1)
  }

  // ----- Every step keeps the table well formed

  ghost predicate SameShape(g: Gen, g': Gen) {
    && g'.cfg == g.cfg && |g'.entries| == |g.entries|
    && forall i | 0 <= i < |g.entries| :: g'.entries[i].up == g.entries[i].up
  }

  lemma MoveKeepsShape(g: Gen, p: nat, q: Proc, m: Move)
    requires ProcOk(g, q) && CanMove(g, p, q, m)
    ensures var (g', q') := Moved(g, p, q, m); SameShape(g, g') && ProcOk(g', q') && q'.gen == q.gen
  {
    if m.EndScan? {
      SelectMeaning(q.task.seen);
      var c := Select(q.task.seen);
      assert forall k | 0 <= k < |c.picks| :: c.picks[k] in c.picks;
    }
  }

  lemma NewGenOk(cfg: Config, rows: seq<Failover.Row>, histories: seq<seq<Event>>)
    requires WellFormed(cfg) && |rows| == |histories|
    ensures GenOk(NewGen(cfg, rows, histories))
  {
  }

  lemma GensAfterMove(s: Sys, p: nat, m: Move)
    requires Ok(s) && Enabled(s, Step(p, m))
    ensures var s' := Next(s, Step(p, m));
            && |s'.gens| == |s.gens| && |s'.procs| == |s.procs|
            && (forall g | 0 <= g < |s.gens| :: SameShape(s.gens[g], s'.gens[g]))
            && s'.procs[p].gen == s.procs[p].gen && ProcOk(s'.gens[s.procs[p].gen], s'.procs[p])
  {
    MoveKeepsShape(s.gens[s.procs[p].gen], p, s.procs[p], m);
  }

  lemma SameShapeOk(g: Gen, g': Gen)
    requires SameShape(g, g')
    ensures GenOk(g) ==> GenOk(g')
    ensures forall q :: ProcOk(g, q) ==> ProcOk(g', q)
  {
  }

  lemma MoveKeepsOk(s: Sys, p: nat, m: Move)
    requires Ok(s) && Enabled(s, Step(p, m))
    ensures Ok(Next(s, Step(p, m)))
  {
    var s' := Next(s, Step(p, m));
    GensAfterMove(s, p, m);
    forall g | 0 <= g < |s.gens| ensures GenOk(s'.gens[g]) {
      SameShapeOk(s.gens[g], s'.gens[g]);
    }
    forall k | 0 <= k < |s.procs| ensures s'.procs[k].gen < |s.gens| && ProcOk(s'.gens[s'.procs[k].gen], s'.procs[k]) {
      SameShapeOk(s.gens[s.procs[k].gen], s'.gens[s.procs[k].gen]);
    }
  }

  lemma SpawnKeepsOk(s: Sys, s': Sys, q: Proc)
    requires Ok(s) && |s'.gens| == |s.gens| && s'.procs == s.procs + [q] && s'.reload == s.reload
    requires forall g | 0 <= g < |s.gens| :: s'.gens[g] == s.gens[g].(limit := s'.gens[g].limit)
    requires q.gen < |s.gens| && ProcOk(s.gens[q.gen], q)
    ensures Ok(s')
  {
    forall k | 0 <= k < |s'.procs|
      ensures s'.procs[k].gen < |s'.gens| && ProcOk(s'.gens[s'.procs[k].gen], s'.procs[k])
    {
      assert k < |s.procs| ==> s'.procs[k] == s.procs[k];
    }
  }

  lemma ReloadKeepsOk(s: Sys, a: Action)
    requires Ok(s) && Enabled(s, a) && !a.Step? && !a.Admit? && !a.SpawnProbe?
    ensures Ok(Next(s, a))
  {
    if a.CommitReload? {
      NewGenOk(s.reload.next, s.reload.rows, s.reload.histories);
    }
  }

  lemma {:induction false} StepKeepsOk(s: Sys, a: Action)
    requires Ok(s) && Enabled(s, a)
    ensures Ok(Next(s, a))
  {
    match a {
      case Step(p, m) => MoveKeepsOk(s, p, m);
      case Admit(g) => SpawnKeepsOk(s, Next(s, a), Proc(g, Scanning([]), Quiet));
      case SpawnProbe(g, at) => SpawnKeepsOk(s, Next(s, a), Proc(g, Probing(at), Quiet));
      case _ => ReloadKeepsOk(s, a);
    }
  }

  lemma ShapePersists(s: Sys, a: Action, g: nat)
    requires Ok(s) && Enabled(s, a) && g < |s.gens|
    ensures g < |Next(s, a).gens| && SameShape(s.gens[g], Next(s, a).gens[g])
  {
    if a.Step? {
      MoveKeepsShape(s.gens[s.procs[a.p].gen], a.p, s.procs[a.p], a.move);
    }
  }

  // ----- Runs

  /** A run: the states it passes through and the actions between them. */
  datatype Run = Run(states: seq<Sys>, actions: seq<Action>)

  ghost predicate IsStart(s: Sys) {
    exists cfg :: WellFormed(cfg) && s == Initial(cfg)
  }

  ghost predicate IsRun(r: Run) {
    && |r.states| == |r.actions| + 1
    && IsStart(r.states[0])
    && forall t | 0 <= t < |r.actions| :: StepAt(r, t)
  }

  ghost predicate StepAt(r: Run, t: nat)
    requires |r.states| == |r.actions| + 1 && t < |r.actions|
  {
    Ok(r.states[t]) && Enabled(r.states[t], r.actions[t]) && r.states[t + 1] == Next(r.states[t], r.actions[t])
  }

  lemma InitialOk(cfg: Config)
    requires WellFormed(cfg)
    ensures Ok(Initial(cfg))
  {
    NewGenOk(cfg, [], []);
  }

  lemma RunKeepsOk(r: Run, t: nat)
    requires IsRun(r) && t < |r.states|
    ensures Ok(r.states[t])
  {
    if t < |r.actions| {
      assert StepAt(r, t);
    } else if t > 0 {
      assert StepAt(r, t - 1);
      StepKeepsOk(r.states[t - 1], r.actions[t - 1]);
    } else {
      var cfg :| WellFormed(cfg) && r.states[0] == Initial(cfg);
      InitialOk(cfg);
    }
  }

  lemma {:induction false} HoldsThroughout(states: seq<Sys>, t0: nat, t: nat, inv: Sys -> bool)
    requires t0 <= t < |states| && inv(states[t0])
    requires forall u | t0 <= u < t && inv(states[u]) :: inv(states[u + 1])
    ensures inv(states[t])
    decreases t
  {
    if t0 < t {
      HoldsThroughout(states, t0, t - 1, inv);
    }
  }

  /** What every step keeps holds from the moment it first does. */
  lemma InvariantFrom(r: Run, t0: nat, t: nat, inv: Sys -> bool)
    requires IsRun(r) && t0 <= t < |r.states| && inv(r.states[t0])
    requires forall s, a | Ok(s) && Enabled(s, a) && inv(s) :: inv(Next(s, a))
    ensures inv(r.states[t])
  {
    forall u | t0 <= u < t && inv(r.states[u]) ensures inv(r.states[u + 1]) {
      assert StepAt(r, u);
    }
    HoldsThroughout(r.states, t0, t, inv);
  }

  /** What holds at the start and is kept by every step holds in every state of
      every run. */
  lemma InvariantOfRuns(r: Run, t: nat, inv: Sys -> bool)
    requires IsRun(r) && t < |r.states|
    requires forall cfg | WellFormed(cfg) :: inv(Initial(cfg))
    requires forall s, a | Ok(s) && Enabled(s, a) && inv(s) :: inv(Next(s, a))
    ensures inv(r.states[t])
  {
    InvariantFrom(r, 0, t, inv);
  }
}
