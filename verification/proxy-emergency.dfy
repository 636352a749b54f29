/** How the emergency path closes over every run: whatever requests, probes and
    reloads interleave. */
module ProxyEmergency {
  import opened Wrappers
  import opened Health
  import opened Selection
  import opened Config
  import opened Proxy
  import opened ProxyHistory
  import Emergency

  /** Counted successes among some reports. */
  ghost function Counted(events: seq<Event>): nat {
    if events == [] then 0
    else Counted(events[..|events| - 1]) + if events[|events| - 1].outcome == Success(true) then 1 else 0
  }

  ghost predicate AllFail(events: seq<Event>) {
    forall k | 0 <= k < |events| :: events[k].outcome.Failure?
  }

  ghost predicate AllSucceed(events: seq<Event>, recoverThreshold: int) {
    forall k | 0 <= k < |events| :: events[k].outcome.Success? && events[k].recoverThreshold == recoverThreshold
  }

  lemma {:induction false} FailuresKeepOut(history: seq<Event>, events: seq<Event>)
    requires Replay(history).state.Out() && AllFail(events)
    ensures Replay(history + events).state.Out()
    decreases |events|
  {
    if events == [] {
      assert history + events == history;
    } else {
      var n := |events| - 1;
      FailuresKeepOut(history, events[..n]);
      ReplayStep(history + events[..n], events[n]);
      assert history + events[..n] + [events[n]] == history + events;
    }
  }

  /** Successes bring a record back exactly when the counted ones among them reach
      what it needs; passive ones change nothing before and nothing after. */
  lemma {:induction false} SuccessesBringBack(history: seq<Event>, events: seq<Event>, recoverThreshold: int)
    requires Replay(history).state.Out() && AllSucceed(events, recoverThreshold)
    ensures var h, h', n := Replay(history), Replay(history + events), Counted(events);
            && (h'.state.Out() <==> n < Emergency.Needed(h, recoverThreshold))
            && (h'.state.Out() ==> h'.successes == h.successes + n)
    decreases |events|
  {
    if events == [] {
      assert history + events == history;
    } else {
      var n := |events| - 1;
      SuccessesBringBack(history, events[..n], recoverThreshold);
      ReplayStep(history + events[..n], events[n]);
      assert history + events[..n] + [events[n]] == history + events;
    }
  }

  lemma {:induction false} ReportsCarryThreshold(r: Run, g: nat, i: nat, t0: nat, t1: nat, recoverThreshold: int)
    requires t0 <= t1 <= |r.actions| < |r.states|
    requires forall t | t0 <= t < t1 ::
               g < |r.states[t].gens| && r.states[t].gens[g].cfg.recoverThreshold == recoverThreshold
    ensures forall e <- OwnReports(r, g, i, t0, t1) :: e.recoverThreshold == recoverThreshold
    decreases t1
  {
    if t0 < t1 {
      ReportsCarryThreshold(r, g, i, t0, t1 - 1, recoverThreshold);
    }
  }

  /** Over the steps from t0 to t1 every report on manager g is a failure of an
      upstream other than u or a success of u. */
  ghost predicate OnlyAnswers(r: Run, g: nat, u: nat, t0: nat, t1: nat)
    requires t0 <= t1 <= |r.actions| < |r.states| && g < |r.states[t0].gens|
  {
    forall i | 0 <= i < |r.states[t0].gens[g].entries| ::
      forall e <- OwnReports(r, g, i, t0, t1) :: if i == u then e.outcome.Success? else e.outcome.Failure?
  }

  lemma EntryAfter(r: Run, g: nat, u: nat, i: nat, t0: nat, t1: nat)
    requires IsRun(r) && t0 <= t1 <= |r.actions| && Exists(r, t0, g, i) && At(r, t0, g, i).health.state.Out()
    requires OnlyAnswers(r, g, u, t0, t1)
    ensures Exists(r, t1, g, i)
    ensures At(r, t1, g, i).health.state.Out() <==>
            i != u || Counted(OwnReports(r, g, u, t0, t1))
                      < Emergency.Needed(At(r, t0, g, u).health, r.states[t0].gens[g].cfg.recoverThreshold)
  {
    var events, threshold := OwnReports(r, g, i, t0, t1), r.states[t0].gens[g].cfg.recoverThreshold;
    OnlyOwnReportsArrive(r, g, i, t0, t1);
    RunKeepsHistories(r, t0);
    RunKeepsHistories(r, t1);
    assert Replayed(r.states[t0].gens[g]) && Replayed(r.states[t1].gens[g]);
    assert forall k | 0 <= k < |events| :: events[k] in events;
    if i == u {
      ThresholdThroughout(r, g, u, t0, t1);
      SuccessesBringBack(At(r, t0, g, i).history, events, threshold);
    } else {
      FailuresKeepOut(At(r, t0, g, i).history, events);
    }
  }

  lemma ThresholdThroughout(r: Run, g: nat, i: nat, t0: nat, t1: nat)
    requires IsRun(r) && t0 <= t1 <= |r.actions| && Exists(r, t0, g, i)
    ensures forall e <- OwnReports(r, g, i, t0, t1) :: e.recoverThreshold == r.states[t0].gens[g].cfg.recoverThreshold
  {
    forall t | t0 <= t < t1
      ensures g < |r.states[t].gens| && r.states[t].gens[g].cfg == r.states[t0].gens[g].cfg
    {
      ManagersPersist(r, g, i, t0, t);
    }
    ReportsCarryThreshold(r, g, i, t0, t1, r.states[t0].gens[g].cfg.recoverThreshold);
  }

  /** Emergency ends, over every run: from a state with all upstreams of a manager
      out of service, while u answers and the others only fail, however requests
      and probes interleave, the selection is the emergency list until exactly the
      counted success of u that reaches the recovery threshold, and u alone from
      then on. */
  lemma EmergencyEndsInRuns(r: Run, g: nat, u: nat, t0: nat, t1: nat)
    requires IsRun(r) && t0 <= t1 <= |r.actions| && Exists(r, t0, g, u)
    requires forall i | 0 <= i < |r.states[t0].gens[g].entries| :: At(r, t0, g, i).health.state.Out()
    requires OnlyAnswers(r, g, u, t0, t1)
    ensures Exists(r, t1, g, u)
    ensures var now := r.states[t1].gens[g];
            var n := Counted(OwnReports(r, g, u, t0, t1));
            Select(Flags(now)) ==
              if n < Emergency.Needed(At(r, t0, g, u).health, r.states[t0].gens[g].cfg.recoverThreshold)
              then Choice(Everyone(|now.entries|), true) else Choice([u], false)
  {
    ManagersPersist(r, g, u, t0, t1);
    SameEntries(r, g, u, t0, t1);
    var now := r.states[t1].gens[g];
    var n := Counted(OwnReports(r, g, u, t0, t1));
    var need := Emergency.Needed(At(r, t0, g, u).health, r.states[t0].gens[g].cfg.recoverThreshold);
    forall i | 0 <= i < |now.entries| ensures now.entries[i].health.state.Out() <==> i != u || n < need {
      EntryAfter(r, g, u, i, t0, t1);
      assert At(r, t1, g, i) == now.entries[i];
    }
    assert forall i | 0 <= i < |now.entries| :: Healths(now)[i] == now.entries[i].health;
    if n < need {
      SelectMeaning(Flags(now));
    } else {
      Emergency.SoleCandidate(Healths(now), u);
    }
  }

  lemma SameEntries(r: Run, g: nat, u: nat, t0: nat, t1: nat)
    requires IsRun(r) && t0 <= t1 <= |r.actions| && Exists(r, t0, g, u)
    ensures g < |r.states[t1].gens| && |r.states[t1].gens[g].entries| == |r.states[t0].gens[g].entries|
  {
    ManagersPersist(r, g, u, t0, t1);
    RunKeepsOk(r, t0);
    RunKeepsOk(r, t1);
    assert GenOk(r.states[t0].gens[g]) && GenOk(r.states[t1].gens[g]);
  }
}
