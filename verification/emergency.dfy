/** How the emergency path closes again: successive client requests that the
    same upstream answers while every upstream is out of service. */
module Emergency {
  import opened Wrappers
  import opened Health
  import opened Selection
  import opened Config
  import opened Failover
  import opened Walking
  import opened Resolver

  ghost predicate AllOut(hs: seq<Snapshot>) {
    forall i | 0 <= i < |hs| :: hs[i].state.Out()
  }

  /** Failures recorded one after another, by whomever. */
  function Fail(hs: seq<Snapshot>, failing: seq<nat>, failThreshold: int): (r: seq<Snapshot>)
    requires InRange(failing, |hs|)
    ensures |r| == |hs|
    decreases |failing|
  {
    if failing == [] then hs
    else
      var n := |failing| - 1;
      var before := Fail(hs, failing[..n], failThreshold);
      before[failing[n] := OnFailure(before[failing[n]], failThreshold)]
  }

  /** One request: failures recorded before its selection, the selection, further
      failures while it runs, and then the answer of upstream u, reported with
      the emergency flag of the selection as `resolve` does. */
  datatype Request = Request(before: seq<nat>, during: seq<nat>)

  ghost predicate Others(failing: seq<nat>, u: nat, n: nat) {
    forall k | 0 <= k < |failing| :: failing[k] < n && failing[k] != u
  }

  function Serve(hs: seq<Snapshot>, u: nat, q: Request, failThreshold: int, recoverThreshold: int): (r: seq<Snapshot>)
    requires u < |hs| && Others(q.before, u, |hs|) && Others(q.during, u, |hs|)
    ensures |r| == |hs|
  {
    var selected := Fail(hs, q.before, failThreshold);
    var emergency := Select(InService(selected)).emergency;
    var answered := Fail(selected, q.during, failThreshold);
    answered[u := OnSuccess(answered[u], emergency, recoverThreshold)]
  }

  ghost predicate AllOthers(requests: seq<Request>, u: nat, n: nat) {
    forall k | 0 <= k < |requests| :: Others(requests[k].before, u, n) && Others(requests[k].during, u, n)
  }

  ghost function ServeAll(hs: seq<Snapshot>, u: nat, requests: seq<Request>, failThreshold: int,
                          recoverThreshold: int): (r: seq<Snapshot>)
    requires u < |hs| && AllOthers(requests, u, |hs|)
    ensures |r| == |hs|
    decreases |requests|
  {
    if requests == [] then hs
    else
      var n := |requests| - 1;
      Serve(ServeAll(hs, u, requests[..n], failThreshold, recoverThreshold), u, requests[n], failThreshold,
            recoverThreshold)
  }

  lemma {:induction false} FailuresKeepOut(hs: seq<Snapshot>, failing: seq<nat>, u: nat, failThreshold: int)
    requires u < |hs| && Others(failing, u, |hs|) && AllOut(hs)
    ensures var hs' := Fail(hs, failing, failThreshold); hs'[u] == hs[u] && AllOut(hs')
    decreases |failing|
  {
    if failing != [] {
      FailuresKeepOut(hs, failing[..|failing| - 1], u, failThreshold);
    }
  }

  /** One request in emergency: upstream u advances by one counted success. */
  lemma ServeOnce(hs: seq<Snapshot>, u: nat, q: Request, failThreshold: int, recoverThreshold: int)
    requires u < |hs| && Others(q.before, u, |hs|) && Others(q.during, u, |hs|) && AllOut(hs)
    ensures var hs' := Serve(hs, u, q, failThreshold, recoverThreshold);
            && |hs'| == |hs|
            && hs'[u] == OnSuccess(hs[u], true, recoverThreshold)
            && forall i | 0 <= i < |hs| && i != u :: hs'[i].state.Out()
  {
    FailuresKeepOut(hs, q.before, u, failThreshold);
    var selected := Fail(hs, q.before, failThreshold);
    SelectMeaning(InService(selected));
    FailuresKeepOut(selected, q.during, u, failThreshold);
  }

  lemma FirstTwoDiffer(picks: seq<nat>)
    requires Increasing(picks)
    ensures |picks| > 1 ==> picks[0] != picks[1]
  {
  }

  lemma SoleCandidate(hs: seq<Snapshot>, u: nat)
    requires u < |hs| && forall i | 0 <= i < |hs| :: hs[i].state.Out() <==> i != u
    ensures Select(InService(hs)) == Choice([u], false)
  {
    var c := Select(InService(hs));
    SelectMeaning(InService(hs));
    assert InService(hs)[u];
    assert forall k | 0 <= k < |c.picks| :: c.picks[k] in c.picks;
    assert forall k | 0 <= k < |c.picks| :: c.picks[k] == u;
    FirstTwoDiffer(c.picks);
    assert |c.picks| == 1;
  }

  /** How many answers upstream u still needs. */
  function Needed(h: Snapshot, recoverThreshold: int): nat {
    if h.successes + 1 >= recoverThreshold then 1 else recoverThreshold - h.successes
  }

  /** The record of u after n counted successes in a row. */
  ghost predicate Advanced(h: Snapshot, h': Snapshot, n: nat, recoverThreshold: int) {
    && (h'.state.Out() <==> n < Needed(h, recoverThreshold))
    && (n < Needed(h, recoverThreshold) ==> h'.successes == h.successes + n)
  }

  /** Emergency ends: with everyone out of service, requests that u answers keep
      the selection in emergency until exactly the one that reaches the recovery
      threshold, and then u is the sole normal candidate, however often the
      others fail meanwhile. */
  lemma {:induction false} EmergencyEnds(hs: seq<Snapshot>, u: nat, requests: seq<Request>, failThreshold: int,
                                         recoverThreshold: int)
    requires u < |hs| && AllOthers(requests, u, |hs|) && AllOut(hs)
    requires |requests| <= Needed(hs[u], recoverThreshold)
    ensures var hs' := ServeAll(hs, u, requests, failThreshold, recoverThreshold);
            && Advanced(hs[u], hs'[u], |requests|, recoverThreshold)
            && if |requests| < Needed(hs[u], recoverThreshold)
               then AllOut(hs') && Select(InService(hs')) == Choice(Everyone(|hs|), true)
               else Select(InService(hs')) == Choice([u], false)
    decreases |requests|
  {
    var hs' := ServeAll(hs, u, requests, failThreshold, recoverThreshold);
    if requests != [] {
      var n := |requests| - 1;
      EmergencyEnds(hs, u, requests[..n], failThreshold, recoverThreshold);
      ServeOnce(ServeAll(hs, u, requests[..n], failThreshold, recoverThreshold), u, requests[n], failThreshold,
                recoverThreshold);
    }
    if |requests| < Needed(hs[u], recoverThreshold) {
      SelectMeaning(InService(hs'));
    } else {
      SoleCandidate(hs', u);
    }
  }

  /** A Down upstream needs exactly recoverThreshold answers, any other at most. */
  lemma {:induction false} NeededBound(history: seq<Event>, recoverThreshold: int)
    requires Replay(history).state.Out() && recoverThreshold >= 1
    ensures Needed(Replay(history), recoverThreshold) <= recoverThreshold
    ensures Replay(history).state.Down? ==> Needed(Replay(history), recoverThreshold) == recoverThreshold
  {
    OutCountsProbes(history);
  }

  // ----- The requests are those of `resolve`

  /** The entries of the attempts that ended in a transport error. */
  function Failing(at: seq<nat>, attempts: seq<Attempt>): (r: seq<nat>)
    requires |attempts| <= |at|
    ensures forall k | 0 <= k < |r| :: r[k] in at[..|attempts|]
    decreases |attempts|
  {
    if attempts == [] then []
    else
      var n := |attempts| - 1;
      assert at[..n] <= at[..n + 1] && at[..n + 1][n] == at[n];
      Failing(at, attempts[..n]) + if attempts[n].verdict.Error? then [at[n]] else []
  }

  /** Attempts without an acceptable answer leave the failures of those with a
      transport error. */
  lemma {:induction false} FeedbackIsFail(es: seq<Entry>, at: seq<nat>, attempts: seq<Attempt>, emergency: bool,
                                          failThreshold: int, recoverThreshold: int)
    requires |attempts| <= |at| && InRange(at, |es|)
    requires forall k | 0 <= k < |attempts| :: !attempts[k].verdict.Acceptable()
    ensures InRange(Failing(at, attempts), |es|)
    ensures HealthsOf(Feedback(es, at, attempts, emergency, failThreshold, recoverThreshold))
            == Fail(HealthsOf(es), Failing(at, attempts), failThreshold)
    decreases |attempts|
  {
    if attempts != [] {
      var n := |attempts| - 1;
      FeedbackIsFail(es, at, attempts[..n], emergency, failThreshold, recoverThreshold);
      var before := Feedback(es, at, attempts[..n], emergency, failThreshold, recoverThreshold);
      ReactedOnce(before, at[n], attempts[n].verdict, emergency, failThreshold, recoverThreshold);
      var init, failing := Failing(at, attempts[..n]), Failing(at, attempts);
      var after := Feedback(es, at, attempts, emergency, failThreshold, recoverThreshold);
      if attempts[n].verdict.Error? {
        assert failing == init + [at[n]] && failing[..|init|] == init;
        assert HealthsOf(after) == HealthsOf(before)[at[n] := OnFailure(HealthsOf(before)[at[n]], failThreshold)];
      } else {
        assert failing == init;
        assert HealthsOf(after) == HealthsOf(before);
      }
    }
  }

  /** The request that a walk answered at its last attempt amounts to. */
  function RequestOf(before: seq<nat>, at: seq<nat>, attempts: seq<Attempt>): Request
    requires 0 < |attempts| <= |at|
  {
    Request(before, Failing(at, attempts[..|attempts| - 1]))
  }

  /** The reports of an answered `resolve` on its own selection are one request as
      modelled here, answered by the entry of its last attempt. */
  lemma FeedbackIsServe(es: seq<Entry>, at: seq<nat>, attempts: seq<Attempt>, failThreshold: int, recoverThreshold: int)
    requires 0 < |attempts| <= |at| && InRange(at, |es|) && NoRepeats(at)
    requires attempts[|attempts| - 1].verdict.Acceptable()
    requires forall k | 0 <= k < |attempts| - 1 :: !attempts[k].verdict.Acceptable()
    ensures Others(RequestOf([], at, attempts).during, at[|attempts| - 1], |es|)
    ensures HealthsOf(Feedback(es, at, attempts, Select(FlagsOf(es)).emergency, failThreshold, recoverThreshold))
            == Serve(HealthsOf(es), at[|attempts| - 1], RequestOf([], at, attempts), failThreshold, recoverThreshold)
  {
    var n, emergency := |attempts| - 1, Select(FlagsOf(es)).emergency;
    FeedbackIsFail(es, at, attempts[..n], emergency, failThreshold, recoverThreshold);
    var before := Feedback(es, at, attempts[..n], emergency, failThreshold, recoverThreshold);
    ReactedOnce(before, at[n], attempts[n].verdict, emergency, failThreshold, recoverThreshold);
    assert at[n] !in at[..n];
  }

  /** A client: failures others report first, then its `resolve`. */
  datatype Client = Client(before: seq<nat>, turns: seq<Turn>, start: int, deadline: Option<int>, attemptTimeout: int) {
    function Walked(): Trace {
      Walk(turns, start, deadline, attemptTimeout)
    }

    /** With all n upstreams as candidates, the one at u answers. */
    ghost predicate AnsweredBy(u: nat, n: nat) {
      |turns| == n && Others(before, u, n) && Walked().ending.Answered? && |Walked().attempts| == u + 1
    }
  }

  lemma FailNext(hs: seq<Snapshot>, failing: seq<nat>, k: nat, failThreshold: int)
    requires InRange(failing, |hs|) && k < |failing|
    ensures var before := Fail(hs, failing[..k], failThreshold);
            var after := Fail(hs, failing[..k + 1], failThreshold);
            after == before[failing[k] := OnFailure(before[failing[k]], failThreshold)]
  {
    assert failing[..k + 1][..k] == failing[..k];
  }

  lemma ReportedHealths(es: seq<Entry>, i: nat, o: Outcome, failThreshold: int, recoverThreshold: int)
    requires i < |es|
    ensures var r := ReportedAt(es, i, o, failThreshold, recoverThreshold);
            && ConfigsOf(r) == ConfigsOf(es)
            && HealthsOf(r) == HealthsOf(es)[i := Record(es[i].health, o, failThreshold, recoverThreshold)]
  {
  }

  method FailOthers(m: Manager, failing: seq<nat>)
    requires m.Valid() && Distinct(ConfigsOf(m.entries)) && InRange(failing, |m.entries|)
    modifies m`entries, m`lastActive, m`lines
    ensures m.Valid() && ConfigsOf(m.entries) == ConfigsOf(old(m.entries))
    ensures HealthsOf(m.entries) == Fail(HealthsOf(old(m.entries)), failing, m.failThreshold)
  {
    ghost var us, hs := ConfigsOf(m.entries), HealthsOf(m.entries);
    for k := 0 to |failing|
      invariant m.Valid() && ConfigsOf(m.entries) == us
      invariant HealthsOf(m.entries) == Fail(hs, failing[..k], m.failThreshold)
    {
      assert |m.entries| == |us|;
      IndexedDistinct(m.entries, m.byName, failing[k]);
      ReportedHealths(m.entries, failing[k], Failure, m.failThreshold, m.recoverThreshold);
      FailNext(hs, failing, k, m.failThreshold);
      m.RecordFailure(m.entries[failing[k]].config.name);
    }
    assert failing[..|failing|] == failing;
  }

  lemma {:induction false} FeedbackKeepsConfigs(es: seq<Entry>, at: seq<nat>, attempts: seq<Attempt>, emergency: bool,
                                                failThreshold: int, recoverThreshold: int)
    requires |attempts| <= |at| && InRange(at, |es|)
    ensures ConfigsOf(Feedback(es, at, attempts, emergency, failThreshold, recoverThreshold)) == ConfigsOf(es)
    decreases |attempts|
  {
    if attempts != [] {
      var n := |attempts| - 1;
      FeedbackKeepsConfigs(es, at, attempts[..n], emergency, failThreshold, recoverThreshold);
      var before := Feedback(es, at, attempts[..n], emergency, failThreshold, recoverThreshold);
      ReactedOnce(before, at[n], attempts[n].verdict, emergency, failThreshold, recoverThreshold);
      assert ConfigsOf(before) == ConfigsOf(es);
    }
  }

  /** With everyone out of service the candidates are all upstreams. */
  lemma EveryoneChosen(es: seq<Entry>)
    requires AllOut(HealthsOf(es))
    ensures Select(FlagsOf(es)) == Choice(Everyone(|es|), true) && Chosen(es) == ConfigsOf(es)
    ensures NoRepeats(Everyone(|es|))
  {
    SelectMeaning(FlagsOf(es));
    PickEveryone(ConfigsOf(es));
  }

  ghost function ClientRequest(c: Client, u: nat, n: nat): (q: Request)
    requires u < n && c.AnsweredBy(u, n)
    ensures Others(q.before, u, n) && Others(q.during, u, n)
  {
    var at, attempts := Everyone(n), c.Walked().attempts;
    assert at[..u] == Everyone(u);
    RequestOf(c.before, at, attempts)
  }

  /** What `resolve` does for such a client once the others have failed. */
  lemma ClientServes(hs: seq<Snapshot>, es: seq<Entry>, byName: map<string, nat>, u: nat, c: Client,
                     failThreshold: int, recoverThreshold: int)
    requires Indexed(es, byName) && Distinct(ConfigsOf(es)) && u < |es| == |hs| && AllOut(hs) && c.AnsweredBy(u, |es|)
    requires HealthsOf(es) == Fail(hs, c.before, failThreshold)
    ensures |Chosen(es)| == |es| && forall k | 0 <= k < |es| :: Chosen(es)[k].name in byName
    ensures Indices(byName, Chosen(es)) == Everyone(|es|) && |c.Walked().attempts| <= |es|
    ensures var es' := EntriesAfter(es, Everyone(|es|), c.Walked(), Select(FlagsOf(es)).emergency, failThreshold,
                                    recoverThreshold);
            && ConfigsOf(es') == ConfigsOf(es)
            && HealthsOf(es') == Serve(hs, u, ClientRequest(c, u, |es|), failThreshold, recoverThreshold)
  {
    var at, attempts := Everyone(|es|), c.Walked().attempts;
    FailuresKeepOut(hs, c.before, u, failThreshold);
    EveryoneChosen(es);
    ReportsGoToPicks(es, byName);
    FirstAcceptableAnswer(c.turns, c.start, c.deadline, c.attemptTimeout);
    FeedbackIsServe(es, at, attempts, failThreshold, recoverThreshold);
    FeedbackKeepsConfigs(es, at, attempts, true, failThreshold, recoverThreshold);
  }

  /** One client in emergency, on the manager itself. */
  method ServeClient(m: Manager, u: nat, c: Client)
    requires m.Valid() && Distinct(ConfigsOf(m.entries)) && u < |m.entries| && AllOut(HealthsOf(m.entries))
    requires c.AnsweredBy(u, |m.entries|)
    modifies m
    ensures m.Valid() && ConfigsOf(m.entries) == ConfigsOf(old(m.entries))
    ensures HealthsOf(m.entries) == Serve(HealthsOf(old(m.entries)), u, ClientRequest(c, u, |old(m.entries)|),
                                          m.failThreshold, m.recoverThreshold)
  {
    ghost var us, hs := ConfigsOf(m.entries), HealthsOf(m.entries);
    FailOthers(m, c.before);
    assert |m.entries| == |us| == |hs|;
    ClientServes(hs, m.entries, m.byName, u, c, m.failThreshold, m.recoverThreshold);
    var _, _, _ := Resolve(m, c.turns, c.start, c.deadline, c.attemptTimeout);
  }

  ghost function ClientRequests(clients: seq<Client>, u: nat, n: nat): (qs: seq<Request>)
    requires u < n && forall k | 0 <= k < |clients| :: clients[k].AnsweredBy(u, n)
    ensures |qs| == |clients| && AllOthers(qs, u, n)
  {
    seq(|clients|, k requires 0 <= k < |clients| => ClientRequest(clients[k], u, n))
  }

  /** Before the last of the requests needed everyone is still out of service. */
  lemma ServeNext(hs: seq<Snapshot>, u: nat, qs: seq<Request>, k: nat, failThreshold: int, recoverThreshold: int)
    requires u < |hs| && AllOthers(qs, u, |hs|) && AllOut(hs) && k < |qs| <= Needed(hs[u], recoverThreshold)
    ensures AllOut(ServeAll(hs, u, qs[..k], failThreshold, recoverThreshold))
    ensures ServeAll(hs, u, qs[..k + 1], failThreshold, recoverThreshold)
            == Serve(ServeAll(hs, u, qs[..k], failThreshold, recoverThreshold), u, qs[k], failThreshold,
                     recoverThreshold)
  {
    EmergencyEnds(hs, u, qs[..k], failThreshold, recoverThreshold);
    assert qs[..k + 1][..k] == qs[..k];
  }

  /** Emergency ends, on the manager: with everyone out of service, successive calls
      of `resolve` that u answers, with failures of the others before and during
      them, keep the selection in emergency until exactly the one that reaches the
      recovery threshold; then u is the sole normal candidate. */
  method ServeClients(m: Manager, u: nat, clients: seq<Client>)
    requires m.Valid() && Distinct(ConfigsOf(m.entries)) && u < |m.entries| && AllOut(HealthsOf(m.entries))
    requires forall k | 0 <= k < |clients| :: clients[k].AnsweredBy(u, |m.entries|)
    requires |clients| <= Needed(m.entries[u].health, m.recoverThreshold)
    modifies m
    ensures m.Valid() && ConfigsOf(m.entries) == ConfigsOf(old(m.entries))
    ensures Select(FlagsOf(m.entries)) == if |clients| < Needed(old(m.entries)[u].health, m.recoverThreshold)
                                          then Choice(Everyone(|m.entries|), true)
                                          else Choice([u], false)
  {
    ghost var us, hs, f, r := ConfigsOf(m.entries), HealthsOf(m.entries), m.failThreshold, m.recoverThreshold;
    ghost var qs := ClientRequests(clients, u, |m.entries|);
    for k := 0 to |clients|
      invariant m.Valid() && ConfigsOf(m.entries) == us
      invariant HealthsOf(m.entries) == ServeAll(hs, u, qs[..k], f, r)
    {
      assert |m.entries| == |us|;
      ServeNext(hs, u, qs, k, f, r);
      ServeClient(m, u, clients[k]);
    }
    assert qs[..|clients|] == qs && |m.entries| == |us|;
    EmergencyEnds(hs, u, qs, f, r);
  }
}
