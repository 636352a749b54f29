/** Non-atomic selection: what a client's candidate list says about the instants
    of the scan that made it, and whom the client then exchanges with. */
module ProxyScan {
  import opened Wrappers
  import opened Selection
  import opened Config
  import opened Proxy
  import opened ProxyHistory

  ghost predicate Client(r: Run, t: nat, p: nat, g: nat) {
    t < |r.states| && p < |r.states[t].procs| && r.states[t].procs[p].gen == g
  }

  ghost function TaskAt(r: Run, t: nat, p: nat, g: nat): Task
    requires Client(r, t, p, g)
  {
    r.states[t].procs[p].task
  }

  /** At some instant from t0 to t1 the reading of entry i was `flag`. */
  ghost predicate Saw(r: Run, g: nat, i: nat, flag: bool, t0: nat, t1: nat) {
    exists u: nat :: t0 <= u <= t1 && Exists(r, u, g, i) && Flag(At(r, u, g, i)) == flag
  }

  // ----- One step, seen from one process

  ghost function ChoiceOf(t: Task): Option<Choice> {
    match t
    case Trying(c, _) => Some(c)
    case Holding(c, _) => Some(c)
    case Reporting(c, _, _) => Some(c)
    case _ => None
  }

  /** A process scans one entry at a time, selects once, and keeps its list. */
  ghost predicate Evolves(s: Sys, s': Sys, p: nat, g: nat) {
    && p < |s.procs| && p < |s'.procs| && s.procs[p].gen == s'.procs[p].gen == g < |s.gens|
    && var task, task' := s.procs[p].task, s'.procs[p].task;
    && (task'.Scanning? ==>
          && task.Scanning?
          && (task' == task ||
              (|task.seen| < |s.gens[g].entries| && task'.seen == task.seen + [Flag(s.gens[g].entries[|task.seen|])])))
    && (ChoiceOf(task').Some? && !task.Scanning? ==> ChoiceOf(task') == ChoiceOf(task))
  }

  lemma StepEvolves(s: Sys, a: Action, p: nat)
    requires Ok(s) && Enabled(s, a) && p < |s.procs|
    ensures Evolves(s, Next(s, a), p, s.procs[p].gen)
  {
  }

  lemma ProcessesPersist(r: Run, p: nat, g: nat, t0: nat, t: nat)
    requires IsRun(r) && t0 <= t < |r.states| && Client(r, t0, p, g)
    ensures Client(r, t, p, g)
  {
    var inv := (s: Sys) => p < |s.procs| && s.procs[p].gen == g;
    forall s, a | Ok(s) && Enabled(s, a) && inv(s) ensures inv(Next(s, a)) {
      StepEvolves(s, a, p);
    }
    InvariantFrom(r, t0, t, inv);
  }

  lemma RunEvolves(r: Run, p: nat, g: nat, t0: nat, t: nat)
    requires IsRun(r) && t0 <= t < |r.states| && Client(r, t0, p, g)
    ensures forall u | t0 <= u < t :: Evolves(r.states[u], r.states[u + 1], p, g)
  {
    forall u | t0 <= u < t ensures Evolves(r.states[u], r.states[u + 1], p, g) {
      ProcessesPersist(r, p, g, t0, u);
      assert StepAt(r, u);
      StepEvolves(r.states[u], r.actions[u], p);
    }
  }

  lemma SawLater(r: Run, g: nat, i: nat, flag: bool, t0: nat, t1: nat, t2: nat)
    requires Saw(r, g, i, flag, t0, t1) && t1 <= t2
    ensures Saw(r, g, i, flag, t0, t2)
  {
    var u: nat :| t0 <= u <= t1 && Exists(r, u, g, i) && Flag(At(r, u, g, i)) == flag;
    assert t0 <= u <= t2;
  }

  /** Every reading a scan holds was true of its entry at some instant since the
      scan began. */
  lemma {:induction false} ReadingsWereTrue(r: Run, p: nat, g: nat, t0: nat, t: nat, i: nat)
    requires t0 <= t < |r.states| && forall u | t0 <= u < t :: Evolves(r.states[u], r.states[u + 1], p, g)
    requires Client(r, t0, p, g) && TaskAt(r, t0, p, g) == Scanning([])
    requires Client(r, t, p, g) && TaskAt(r, t, p, g).Scanning? && i < |TaskAt(r, t, p, g).seen|
    ensures Saw(r, g, i, TaskAt(r, t, p, g).seen[i], t0, t)
    decreases t
  {
    assert Evolves(r.states[t - 1], r.states[t], p, g);
    var seen := TaskAt(r, t - 1, p, g).seen;
    if i < |seen| {
      ReadingsWereTrue(r, p, g, t0, t - 1, i);
      SawLater(r, g, i, seen[i], t0, t - 1, t);
    } else {
      assert Exists(r, t - 1, g, i) && Flag(At(r, t - 1, g, i)) == TaskAt(r, t, p, g).seen[i];
    }
  }

  // ----- The selection

  /** What a selection promises about the interval in which it was made. */
  ghost predicate Justified(r: Run, g: nat, us: seq<Upstream>, c: Choice, t0: nat, t1: nat) {
    && c.picks != [] && InRange(c.picks, |us|)
    && (forall a, b | 0 <= a < b < |c.picks| :: us[c.picks[a]].priority < us[c.picks[b]].priority)
    && (forall i | 0 <= i < |us| && !c.emergency && i in c.picks :: Saw(r, g, i, true, t0, t1))
    && (forall i | 0 <= i < |us| && i !in c.picks :: Saw(r, g, i, false, t0, t1))
    && (c.emergency ==> forall i | 0 <= i < |us| :: i in c.picks && Saw(r, g, i, false, t0, t1))
  }

  lemma SelectJustified(r: Run, g: nat, us: seq<Upstream>, seen: seq<bool>, t0: nat, t1: nat)
    requires us != [] && IncreasingPriority(us) && |seen| == |us|
    requires forall i | 0 <= i < |us| :: Saw(r, g, i, seen[i], t0, t1)
    ensures Justified(r, g, us, Select(seen), t0, t1)
  {
    SelectMeaning(seen);
    var c := Select(seen);
    assert forall k | 0 <= k < |c.picks| :: c.picks[k] in c.picks;
    forall i | 0 <= i < |us| ensures i in c.picks && !c.emergency ==> Saw(r, g, i, true, t0, t1)
      ensures i !in c.picks || c.emergency ==> Saw(r, g, i, false, t0, t1)
    {
      assert Saw(r, g, i, seen[i], t0, t1);
    }
  }

  /** Candidates under concurrency: with reports interleaved between its per-entry
      reads, every upstream a normal selection returns was in service at some
      instant of the call, every omitted one was out of service at some instant,
      an emergency selection is everyone and each was out at some instant, and
      the list is non-empty and in strictly increasing priority. */
  lemma SelectionIsJustified(r: Run, p: nat, g: nat, t0: nat, t1: nat)
    requires IsRun(r) && t0 <= t1 < |r.actions| && Client(r, t0, p, g) && TaskAt(r, t0, p, g) == Scanning([])
    requires r.actions[t1] == Step(p, EndScan)
    ensures Client(r, t1 + 1, p, g) && TaskAt(r, t1 + 1, p, g).Trying? && g < |r.states[t1].gens|
    ensures Justified(r, g, r.states[t1].gens[g].cfg.upstreams, TaskAt(r, t1 + 1, p, g).choice, t0, t1)
  {
    ProcessesPersist(r, p, g, t0, t1);
    assert StepAt(r, t1);
    assert GenOk(r.states[t1].gens[g]);
    RunEvolves(r, p, g, t0, t1);
    var seen := TaskAt(r, t1, p, g).seen;
    forall i | 0 <= i < |seen| ensures Saw(r, g, i, seen[i], t0, t1) {
      ReadingsWereTrue(r, p, g, t0, t1, i);
    }
    SelectJustified(r, g, r.states[t1].gens[g].cfg.upstreams, seen, t0, t1);
  }

  // ----- The exchanges

  /** After its selection a process never scans again and never changes its list. */
  ghost predicate Bound(t: Task, c: Choice) {
    !t.Scanning? && (ChoiceOf(t).Some? ==> ChoiceOf(t).value == c)
  }

  lemma ListIsKept(r: Run, p: nat, g: nat, c: Choice, t1: nat, t: nat)
    requires IsRun(r) && t1 <= t < |r.states| && Client(r, t1, p, g) && Bound(TaskAt(r, t1, p, g), c)
    ensures Client(r, t, p, g) && Bound(TaskAt(r, t, p, g), c)
  {
    var inv := (s: Sys) => p < |s.procs| && s.procs[p].gen == g && Bound(s.procs[p].task, c);
    forall s, a | Ok(s) && Enabled(s, a) && inv(s) ensures inv(Next(s, a)) {
      StepEvolves(s, a, p);
    }
    InvariantFrom(r, t1, t, inv);
  }

  /** A normal request made while an upstream stays out of service never
      exchanges with it: if entry i was out at every instant of the scan, then no
      later exchange of that request is with entry i. */
  lemma NormalRequestsSkipDown(r: Run, p: nat, g: nat, t0: nat, t1: nat, t: nat, i: nat, reply: Reply)
    requires IsRun(r) && t0 <= t1 < t < |r.actions| && Client(r, t0, p, g) && TaskAt(r, t0, p, g) == Scanning([])
    requires r.actions[t1] == Step(p, EndScan) && r.actions[t] == Step(p, Exchange(reply))
    requires forall u: nat | t0 <= u <= t1 && Exists(r, u, g, i) :: At(r, u, g, i).health.state.Out()
    requires Client(r, t1 + 1, p, g) && TaskAt(r, t1 + 1, p, g).Trying? && !TaskAt(r, t1 + 1, p, g).choice.emergency
    ensures Client(r, t, p, g) && TaskAt(r, t, p, g).Holding?
    ensures var task := TaskAt(r, t, p, g); task.pos < |task.choice.picks| && task.choice.picks[task.pos] != i
  {
    SelectionIsJustified(r, p, g, t0, t1);
    var c := TaskAt(r, t1 + 1, p, g).choice;
    ListIsKept(r, p, g, c, t1 + 1, t);
    assert StepAt(r, t);
    assert !Saw(r, g, i, true, t0, t1);
    assert c.picks[TaskAt(r, t, p, g).pos] in c.picks;
  }

  // ----- Strict priority

  /** How many candidates of its list a client is done with. */
  ghost function Passed(t: Task): nat {
    match t
    case Trying(_, pos) => pos
    case Holding(_, pos) => pos
    case Reporting(_, pos, o) => if o.Failure? then pos + 1 else pos
    case _ => 0
  }

  /** The action is an exchange of process p with candidate k of list c that gave
      no acceptable answer. */
  ghost predicate FailedExchange(s: Sys, a: Action, p: nat, c: Choice, k: nat) {
    && p < |s.procs| && s.procs[p].task == Holding(c, k)
    && (a == Step(p, Exchange(Error)) || a == Step(p, Exchange(Refused)))
  }

  /** A step gets a client past a candidate only by a failed exchange with it. */
  ghost predicate PassesOnlyByExchange(s: Sys, a: Action, s': Sys, p: nat) {
    p < |s'.procs| ==> forall k | 0 <= k < Passed(s'.procs[p].task) :: PassedBefore(s, a, s', p, k)
  }

  ghost predicate PassedBefore(s: Sys, a: Action, s': Sys, p: nat, k: nat)
    requires p < |s'.procs|
  {
    var c := ChoiceOf(s'.procs[p].task);
    && c.Some? && p < |s.procs|
    && (FailedExchange(s, a, p, c.value, k) || (k < Passed(s.procs[p].task) && ChoiceOf(s.procs[p].task) == c))
  }

  lemma MovePasses(g: Gen, p: nat, q: Proc, m: Move, k: nat)
    requires ProcOk(g, q) && CanMove(g, p, q, m) && k < Passed(Moved(g, p, q, m).1.task)
    ensures var c := ChoiceOf(Moved(g, p, q, m).1.task);
            c.Some?
            && ((q.task == Holding(c.value, k) && (m == Exchange(Error) || m == Exchange(Refused)))
                || (k < Passed(q.task) && ChoiceOf(q.task) == c))
  {
  }

  lemma PassedHasChoice(t: Task)
    ensures Passed(t) > 0 ==> ChoiceOf(t).Some?
  {
  }

  lemma StepPasses(s: Sys, a: Action, p: nat)
    requires Ok(s) && Enabled(s, a)
    ensures PassesOnlyByExchange(s, a, Next(s, a), p)
  {
    var s' := Next(s, a);
    if p < |s.procs| {
      PassedHasChoice(s.procs[p].task);
      if a.Step? && a.p == p {
        forall k | 0 <= k < Passed(s'.procs[p].task) ensures PassedBefore(s, a, s', p, k) {
          MovePasses(s.gens[s.procs[p].gen], p, s.procs[p], a.move, k);
        }
      } else {
        assert s'.procs[p] == s.procs[p];
      }
    } else if p < |s'.procs| {
      assert Passed(s'.procs[p].task) == 0;
    }
  }

  lemma {:induction false} ExchangedBefore(r: Run, p: nat, t: nat, k: nat) returns (u: nat)
    requires t < |r.states| == |r.actions| + 1 && r.states[0].procs == []
    requires forall v | 0 <= v < t :: PassesOnlyByExchange(r.states[v], r.actions[v], r.states[v + 1], p)
    requires p < |r.states[t].procs| && k < Passed(r.states[t].procs[p].task)
    ensures u < t && ChoiceOf(r.states[t].procs[p].task).Some?
    ensures FailedExchange(r.states[u], r.actions[u], p, ChoiceOf(r.states[t].procs[p].task).value, k)
    decreases t
  {
    assert PassesOnlyByExchange(r.states[t - 1], r.actions[t - 1], r.states[t], p);
    assert PassedBefore(r.states[t - 1], r.actions[t - 1], r.states[t], p, k);
    var c := ChoiceOf(r.states[t].procs[p].task).value;
    if FailedExchange(r.states[t - 1], r.actions[t - 1], p, c, k) {
      u := t - 1;
    } else {
      u := ExchangedBefore(r, p, t - 1, k);
    }
  }

  /** Strict priority under concurrency: a client at position pos of its list, for
      instance exchanging there, has already had a failed exchange with every
      candidate before it; a full slot never makes it skip one. */
  lemma LowerPriorityOnlyAfterFailures(r: Run, t: nat, p: nat, k: nat) returns (u: nat)
    requires IsRun(r) && t < |r.states| && p < |r.states[t].procs| && k < Passed(r.states[t].procs[p].task)
    ensures u < t && ChoiceOf(r.states[t].procs[p].task).Some?
    ensures FailedExchange(r.states[u], r.actions[u], p, ChoiceOf(r.states[t].procs[p].task).value, k)
  {
    forall v | 0 <= v < t ensures PassesOnlyByExchange(r.states[v], r.actions[v], r.states[v + 1], p) {
      assert StepAt(r, v);
      StepPasses(r.states[v], r.actions[v], p);
    }
    u := ExchangedBefore(r, p, t, k);
  }
}
