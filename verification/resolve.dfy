/** The fallback loop of internal/dnsserver/server.go on the manager: candidates in
    priority order, attempt slots and health feedback. */
module Resolver {
  import opened Wrappers
  import opened Health
  import opened Selection
  import opened Config
  import opened Failover
  import opened Walking

  // ----- What a request does to the entries

  /** The report, if any, that a verdict causes. */
  function ReportFor(verdict: Reply, emergency: bool): Option<Outcome> {
    if verdict.Error? then Some(Failure)
    else if verdict.Acceptable() then Some(Success(emergency))
    else None
  }

  /** The report on the entry at i, if there is one. */
  function Reacted(es: seq<Entry>, i: nat, verdict: Reply, emergency: bool, failThreshold: int,
                   recoverThreshold: int): seq<Entry>
    requires i < |es|
  {
    match ReportFor(verdict, emergency)
    case None => es
    case Some(o) => ReportedAt(es, i, o, failThreshold, recoverThreshold)
  }

  /** When a slot of a full entry is granted, somebody else has given one back. */
  function Waited(e: Entry): Entry {
    if e.attempts >= SLOTS then e.(attempts := SLOTS - 1) else e
  }

  /** An entry on which a slot was taken and kept. */
  function Held(e: Entry): Entry {
    Waited(e).(attempts := Waited(e).attempts + 1)
  }

  /** The entries after the attempts, one after another, on the entries `at`: each
      slot taken is given back, then the verdict is reported. */
  function Feedback(es: seq<Entry>, at: seq<nat>, attempts: seq<Attempt>, emergency: bool,
                    failThreshold: int, recoverThreshold: int): (r: seq<Entry>)
    requires |attempts| <= |at| && InRange(at, |es|)
    ensures |r| == |es|
    decreases |attempts|
  {
    if attempts == [] then es
    else
      var n := |attempts| - 1;
      var before := Feedback(es, at, attempts[..n], emergency, failThreshold, recoverThreshold);
      Reacted(before[at[n] := Waited(before[at[n]])], at[n], attempts[n].verdict, emergency, failThreshold,
              recoverThreshold)
  }

  /** The entries after a whole walk: an overrun keeps the slot of its candidate. */
  function EntriesAfter(es: seq<Entry>, at: seq<nat>, tr: Trace, emergency: bool,
                   failThreshold: int, recoverThreshold: int): (r: seq<Entry>)
    requires |tr.attempts| <= |at| && InRange(at, |es|) && (tr.ending.Overrun? ==> |tr.attempts| < |at|)
    ensures |r| == |es|
  {
    var done := Feedback(es, at, tr.attempts, emergency, failThreshold, recoverThreshold);
    if !tr.ending.Overrun? then done else done[at[|tr.attempts|] := Held(done[at[|tr.attempts|]])]
  }

  /** A slot count after a slot was waited for, taken and given back. */
  function Freed(attempts: nat): nat {
    if attempts >= 16 then 15 else attempts
  }

  ghost predicate NoRepeats(at: seq<nat>) {
    forall j, k | 0 <= j < k < |at| :: at[j] != at[k]
  }

  /** On distinct entries every attempt leaves exactly its own report: one failure
      for a transport error, nothing for SERVFAIL or REFUSED, one success for the
      winner; no other entry changes. */
  lemma {:induction false} FeedbackExactly(es: seq<Entry>, at: seq<nat>, attempts: seq<Attempt>, emergency: bool,
                                           failThreshold: int, recoverThreshold: int)
    requires |attempts| <= |at| && InRange(at, |es|) && NoRepeats(at)
    ensures var r := Feedback(es, at, attempts, emergency, failThreshold, recoverThreshold);
            && (forall k | 0 <= k < |attempts| ::
                  var e := es[at[k]].(attempts := Freed(es[at[k]].attempts));
                  r[at[k]] == match attempts[k].verdict
                              case Error => e.(health := OnFailure(e.health, failThreshold))
                              case Rcode(code) =>
                                if code == 2 || code == 5 then e
                                else e.(health := OnSuccess(e.health, emergency, recoverThreshold)))
            && (forall i | 0 <= i < |es| && i !in at[..|attempts|] :: r[i] == es[i])
    decreases |attempts|
  {
    if attempts != [] {
      var n := |attempts| - 1;
      FeedbackExactly(es, at, attempts[..n], emergency, failThreshold, recoverThreshold);
      assert at[..n + 1] == at[..n] + [at[n]];
      assert at[n] !in at[..n];
      var before := Feedback(es, at, attempts[..n], emergency, failThreshold, recoverThreshold);
      ReactedOnce(before, at[n], attempts[n].verdict, emergency, failThreshold, recoverThreshold);
    }
  }

  lemma ReactedOnce(es: seq<Entry>, i: nat, verdict: Reply, emergency: bool, failThreshold: int, recoverThreshold: int)
    requires i < |es|
    ensures var r := Reacted(es[i := Waited(es[i])], i, verdict, emergency, failThreshold, recoverThreshold);
            && |r| == |es| && (forall j | 0 <= j < |es| && j != i :: r[j] == es[j])
            && r[i] == match ReportFor(verdict, emergency)
                       case None => Waited(es[i])
                       case Some(o) => Reported(Waited(es[i]), o, failThreshold, recoverThreshold)
  {
  }

  /** Slot balance: the slots held on an entry are those held before, less one
      where a full entry was waited for, plus one where an overrun kept its own. */
  ghost predicate SlotsBalance(e: Entry, e': Entry, tried: bool, kept: bool) {
    e'.attempts == (if tried || kept then Freed(e.attempts) else e.attempts) + if kept then 1 else 0
  }

  lemma SlotsBalanceExactly(es: seq<Entry>, at: seq<nat>, tr: Trace, emergency: bool,
                            failThreshold: int, recoverThreshold: int, i: nat)
    requires |tr.attempts| <= |at| && InRange(at, |es|) && (tr.ending.Overrun? ==> |tr.attempts| < |at|)
    requires NoRepeats(at) && i < |es|
    ensures var r := EntriesAfter(es, at, tr, emergency, failThreshold, recoverThreshold);
            && SlotsBalance(es[i], r[i], i in at[..|tr.attempts|], tr.ending.Overrun? && i == at[|tr.attempts|])
            && r[i].health == Feedback(es, at, tr.attempts, emergency, failThreshold, recoverThreshold)[i].health
            && r[i].config == es[i].config
            && (es[i].attempts < 16 ==>
                  r[i].attempts == es[i].attempts + if tr.ending.Overrun? && i == at[|tr.attempts|] then 1 else 0)
  {
    var n := |tr.attempts|;
    FeedbackExactly(es, at, tr.attempts, emergency, failThreshold, recoverThreshold);
    if i in at[..n] {
      var k :| 0 <= k < n && at[k] == i;
    } else if tr.ending.Overrun? {
      assert at[n] !in at[..n];
    }
  }

  // ----- The loop itself

  /** One round of Walk, for a loop that has made `attempts` already. */
  lemma WalkRound(attempts: seq<Attempt>, turns: seq<Turn>, now: int, deadline: Option<int>, attemptTimeout: int)
    requires turns != []
    ensures var tr := Prepend(attempts, Walk(turns, now, deadline, attemptTimeout));
            match RoundOf(turns[0], now, deadline, attemptTimeout)
            case Stop(ending, at) => tr == Trace(attempts, ending, at)
            case Made(a, at) =>
              if a.verdict.Acceptable() then tr == Trace(attempts + [a], Answered, at)
              else tr == Prepend(attempts + [a], Walk(turns[1..], at, deadline, attemptTimeout))
  {
    match RoundOf(turns[0], now, deadline, attemptTimeout)
    case Stop(_, _) => assert attempts + [] == attempts;
    case Made(a, at) =>
      var rest := Walk(turns[1..], at, deadline, attemptTimeout);
      assert attempts + ([a] + rest.attempts) == attempts + [a] + rest.attempts;
  }

  ghost function Indices(byName: map<string, nat>, us: seq<Upstream>): seq<nat>
    requires forall k | 0 <= k < |us| :: us[k].name in byName
  {
    seq(|us|, k requires 0 <= k < |us| => byName[us[k].name])
  }

  /** What a round does to the entries: an attempt gives its slot back and is
      reported, an overrun keeps its slot, any other end changes nothing. */
  function AfterRound(es: seq<Entry>, i: nat, round: Round, emergency: bool,
                      failThreshold: int, recoverThreshold: int): (r: seq<Entry>)
    requires i < |es|
    ensures |r| == |es|
  {
    match round
    case Stop(ending, _) => if ending.Overrun? then es[i := Held(es[i])] else es
    case Made(attempt, _) =>
      Reacted(es[i := Waited(es[i])], i, attempt.verdict, emergency, failThreshold, recoverThreshold)
  }

  /** One round of the loop against the whole walk `goal`. */
  lemma RoundAdvances(es: seq<Entry>, at: seq<nat>, attempts: seq<Attempt>, turns: seq<Turn>, now: int,
                      deadline: Option<int>, attemptTimeout: int, emergency: bool,
                      failThreshold: int, recoverThreshold: int, goal: Trace)
    requires |attempts| < |at| == |turns| && InRange(at, |es|)
    requires goal == Prepend(attempts, Walk(turns[|attempts|..], now, deadline, attemptTimeout))
    ensures var n := |attempts|;
            var round := RoundOf(turns[n], now, deadline, attemptTimeout);
            var before := Feedback(es, at, attempts, emergency, failThreshold, recoverThreshold);
            var after := AfterRound(before, at[n], round, emergency, failThreshold, recoverThreshold);
            match round
            case Stop(ending, end) =>
              && goal == Trace(attempts, ending, end)
              && after == EntriesAfter(es, at, goal, emergency, failThreshold, recoverThreshold)
            case Made(a, end) =>
              && after == Feedback(es, at, attempts + [a], emergency, failThreshold, recoverThreshold)
              && goal == if a.verdict.Acceptable() then Trace(attempts + [a], Answered, end)
                         else Prepend(attempts + [a], Walk(turns[n + 1..], end, deadline, attemptTimeout))
  {
    var n := |attempts|;
    WalkRound(attempts, turns[n..], now, deadline, attemptTimeout);
    assert turns[n..][1..] == turns[n + 1..];
    var round := RoundOf(turns[n], now, deadline, attemptTimeout);
    if round.Made? {
      FeedbackStep(es, at, attempts, round.attempt, emergency, failThreshold, recoverThreshold);
    }
  }

  /** Lines 116-150 for one candidate. A slot is taken on the manager and given
      back to it, except on the exit at lines 128-130. */
  method TryCandidate(m: Manager, candidate: Upstream, emergency: bool, turn: Turn, start: int, deadline: Option<int>,
                      attemptTimeout: int)
    returns (round: Round)
    requires m.Valid() && candidate.name in m.byName
    modifies m`entries, m`lastActive, m`lines
    ensures m.Valid()
    ensures round == RoundOf(turn, start, deadline, attemptTimeout)
    ensures m.entries == AfterRound(old(m.entries), m.byName[candidate.name], round, emergency,
                                    m.failThreshold, m.recoverThreshold)
  {
    if SeesExpiry(turn, start, deadline) {
      return Stop(Expired, start);
    }
    var (ready, granted) := SlotWait(turn, start, deadline);
    if !granted {
      return Stop(NoSlot, ready);
    }
    ghost var was := m.entries;
    TakeSlot(m, candidate.name);
    var now := ready + turn.lag;
    var timeout := attemptTimeout;
    if deadline.Some? {
      var remaining := deadline.value - now;
      if remaining <= 0 {
        return Stop(Overrun, now);
      }
      if remaining < timeout {
        timeout := remaining;
      }
    }
    var reply := Verdict(turn, timeout);
    now := now + Min(turn.took, timeout);
    EndAttempt(m, candidate.name, was, reply, emergency);
    return Made(Attempt(timeout, reply), now);
  }

  lemma GivenBack(es: seq<Entry>, i: nat)
    requires i < |es|
    ensures var held := es[i := Held(es[i])];
            held[i].attempts > 0 && held[i := held[i].(attempts := held[i].attempts - 1)] == es[i := Waited(es[i])]
  {
  }

  /** The granted case of BeginAttemptContext: on a full entry some other holder
      has released before this request gets through. */
  method TakeSlot(m: Manager, name: string)
    requires m.Valid() && name in m.byName
    modifies m`entries
    ensures m.Valid() && m.entries == old(m.entries)[m.byName[name] := Held(old(m.entries)[m.byName[name]])]
  {
    if m.entries[m.byName[name]].attempts == SLOTS {
      m.Release(name);
    }
    var _ := m.BeginAttempt(name);
  }

  /** After the exchange: the slot is given back, then the reply reported. */
  method EndAttempt(m: Manager, name: string, ghost was: seq<Entry>, reply: Reply, emergency: bool)
    requires m.Valid() && name in m.byName && m.byName[name] < |was|
    requires var i := m.byName[name]; m.entries == was[i := Held(was[i])]
    modifies m`entries, m`lastActive, m`lines
    ensures m.Valid()
    ensures var i := m.byName[name];
            m.entries == Reacted(was[i := Waited(was[i])], i, reply, emergency, m.failThreshold, m.recoverThreshold)
  {
    GivenBack(was, m.byName[name]);
    m.Release(name);
    ReportReply(m, name, reply, emergency);
  }

  method ReportReply(m: Manager, name: string, reply: Reply, emergency: bool)
    requires m.Valid() && name in m.byName
    modifies m`entries, m`lastActive, m`lines
    ensures m.Valid()
    ensures m.entries == Reacted(old(m.entries), m.byName[name], reply, emergency, m.failThreshold, m.recoverThreshold)
  {
    if reply.Error? {
      m.RecordFailure(name);
    } else if reply.code != SERVFAIL && reply.code != REFUSED {
      m.RecordSuccess(name, emergency);
    }
  }

  lemma WalkDone(attempts: seq<Attempt>, turns: seq<Turn>, now: int, deadline: Option<int>, attemptTimeout: int)
    ensures Prepend(attempts, Walk(turns[|turns|..], now, deadline, attemptTimeout)) == Trace(attempts, Exhausted, now)
  {
    assert turns[|turns|..] == [] && attempts + [] == attempts;
  }

  lemma IndicesInRange(es: seq<Entry>, byName: map<string, nat>, us: seq<Upstream>)
    requires Indexed(es, byName) && forall k | 0 <= k < |us| :: us[k].name in byName
    ensures InRange(Indices(byName, us), |es|)
  {
  }

  /** The loop of resolve over its candidates. */
  method TryAll(m: Manager, candidates: seq<Upstream>, emergency: bool, turns: seq<Turn>, start: int,
                deadline: Option<int>, attemptTimeout: int)
    returns (tr: Trace)
    requires m.Valid() && |turns| == |candidates|
    requires forall k | 0 <= k < |candidates| :: candidates[k].name in m.byName
    modifies m`entries, m`lastActive, m`lines
    ensures m.Valid() && tr == Walk(turns, start, deadline, attemptTimeout)
    ensures |tr.attempts| <= |candidates| && (tr.ending.Overrun? ==> |tr.attempts| < |candidates|)
    ensures m.entries == EntriesAfter(old(m.entries), Indices(m.byName, candidates), tr, emergency, m.failThreshold,
                                      m.recoverThreshold)
  {
    ghost var was, at, f, r := m.entries, Indices(m.byName, candidates), m.failThreshold, m.recoverThreshold;
    ghost var goal := Walk(turns, start, deadline, attemptTimeout);
    var attempts: seq<Attempt>, now := [], start;
    assert [] + goal.attempts == goal.attempts && turns[0..] == turns;
    IndicesInRange(was, m.byName, candidates);
    for i := 0 to |candidates|
      invariant m.Valid() && |attempts| == i
      invariant goal == Prepend(attempts, Walk(turns[i..], now, deadline, attemptTimeout))
      invariant m.entries == Feedback(was, at, attempts, emergency, f, r)
    {
      RoundAdvances(was, at, attempts, turns, now, deadline, attemptTimeout, emergency, f, r, goal);
      var round := TryCandidate(m, candidates[i], emergency, turns[i], now, deadline, attemptTimeout);
      now := round.at;
      if round.Stop? {
        return Trace(attempts, round.ending, now);
      }
      attempts := attempts + [round.attempt];
      if round.attempt.verdict.Acceptable() {
        return Trace(attempts, Answered, now);
      }
    }
    WalkDone(attempts, turns, now, deadline, attemptTimeout);
    return Trace(attempts, Exhausted, now);
  }

  /** resolve, against the surroundings `turns`: selection, loop and result. The
      upstreams exchanged with are a prefix of the selection; with distinct names
      every slot taken is given back to the manager, except that of an overrun;
      health changes by the reports alone. */
  method Resolve(m: Manager, turns: seq<Turn>, start: int, deadline: Option<int>, attemptTimeout: int)
    returns (result: Result, exchanged: seq<Upstream>, tr: Trace)
    requires m.Valid() && |turns| == |Chosen(m.entries)|
    modifies m
    ensures m.Valid() && m.byName == old(m.byName)
    ensures tr == Walk(turns, start, deadline, attemptTimeout)
    ensures tr.ending.Answered? ==> tr.attempts != [] && tr.attempts[|tr.attempts| - 1].verdict.Rcode?
    ensures result == ResultOf(tr)
    ensures var emergency := old(Select(FlagsOf(m.entries))).emergency;
            && m.emergencyActive == (if m.logging then emergency else old(m.emergencyActive))
            && m.modeChanges == if m.emergencyActive == old(m.emergencyActive) then old(m.modeChanges)
                                else old(m.modeChanges) + [emergency]
    ensures forall k: nat, code :: result == Response(k, code) <==>
              k < |turns| && DeliversAt(turns, k, start, deadline, attemptTimeout) && turns[k].reply.code == code
    ensures |tr.attempts| <= |turns| && exchanged == old(Chosen(m.entries))[..|tr.attempts|]
    ensures tr.ending.Overrun? ==> |tr.attempts| < |turns|
    ensures forall k | 0 <= k < |turns| ::
              var name := old(Chosen(m.entries))[k].name; name in m.byName && m.byName[name] < |old(m.entries)|
    ensures m.entries == EntriesAfter(old(m.entries), Indices(m.byName, old(Chosen(m.entries))), tr,
                                 old(Select(FlagsOf(m.entries))).emergency, m.failThreshold, m.recoverThreshold)
    ensures Distinct(ConfigsOf(old(m.entries))) ==>
              var picks, n := old(Select(FlagsOf(m.entries))).picks, |tr.attempts|;
              && |picks| == |turns|
              && forall i | 0 <= i < |m.entries| ::
                   SlotsBalance(old(m.entries)[i], m.entries[i], i in picks[..n], tr.ending.Overrun? && i == picks[n])
  {
    ghost var was := m.entries;
    NeitherExactly(turns, start, deadline, attemptTimeout);
    exchanged, tr := SelectAndTry(m, turns, start, deadline, attemptTimeout);
    result := ResultOf(tr);
    forall k: nat, code
      ensures result == Response(k, code) <==>
              k < |turns| && DeliversAt(turns, k, start, deadline, attemptTimeout) && turns[k].reply.code == code
    {
      ResponseExactly(turns, k, code, start, deadline, attemptTimeout);
    }
    if Distinct(ConfigsOf(was)) {
      ResolveBalances(was, m.byName, tr, Select(FlagsOf(was)).emergency, m.failThreshold, m.recoverThreshold);
    }
  }

  /** The selection and the loop over it. */
  method SelectAndTry(m: Manager, turns: seq<Turn>, start: int, deadline: Option<int>, attemptTimeout: int)
    returns (exchanged: seq<Upstream>, tr: Trace)
    requires m.Valid() && |turns| == |Chosen(m.entries)|
    modifies m
    ensures m.Valid() && m.byName == old(m.byName)
    ensures tr == Walk(turns, start, deadline, attemptTimeout)
    ensures var emergency := old(Select(FlagsOf(m.entries))).emergency;
            && m.emergencyActive == (if m.logging then emergency else old(m.emergencyActive))
            && m.modeChanges == if m.emergencyActive == old(m.emergencyActive) then old(m.modeChanges)
                                else old(m.modeChanges) + [emergency]
    ensures |tr.attempts| <= |turns| && exchanged == old(Chosen(m.entries))[..|tr.attempts|]
    ensures tr.ending.Overrun? ==> |tr.attempts| < |turns|
    ensures forall k | 0 <= k < |turns| ::
              var name := old(Chosen(m.entries))[k].name; name in m.byName && m.byName[name] < |old(m.entries)|
    ensures m.entries == EntriesAfter(old(m.entries), Indices(m.byName, old(Chosen(m.entries))), tr,
                                      old(Select(FlagsOf(m.entries))).emergency, m.failThreshold, m.recoverThreshold)
  {
    ChosenAreIndexed(m.entries, m.byName);
    var candidates, emergency := m.Candidates();
    m.RecordSelectionMode(emergency);
    tr := TryAll(m, candidates, emergency, turns, start, deadline, attemptTimeout);
    exchanged := candidates[..|tr.attempts|];
  }

  lemma ResolveBalances(es: seq<Entry>, byName: map<string, nat>, tr: Trace, emergency: bool,
                        failThreshold: int, recoverThreshold: int)
    requires Indexed(es, byName) && Distinct(ConfigsOf(es))
    requires |tr.attempts| <= |Chosen(es)| && (tr.ending.Overrun? ==> |tr.attempts| < |Chosen(es)|)
    ensures forall k | 0 <= k < |Chosen(es)| :: Chosen(es)[k].name in byName
    ensures InRange(Indices(byName, Chosen(es)), |es|)
    ensures var picks, n := Select(FlagsOf(es)).picks, |tr.attempts|;
            var es' := EntriesAfter(es, Indices(byName, Chosen(es)), tr, emergency, failThreshold, recoverThreshold);
            && |picks| == |Chosen(es)|
            && forall i | 0 <= i < |es| ::
                 SlotsBalance(es[i], es'[i], i in picks[..n], tr.ending.Overrun? && i == picks[n])
  {
    ReportsGoToPicks(es, byName);
    var picks := Select(FlagsOf(es)).picks;
    SelectMeaning(FlagsOf(es));
    assert forall k | 0 <= k < |picks| :: picks[k] in picks;
    forall i | 0 <= i < |es|
      ensures var es' := EntriesAfter(es, picks, tr, emergency, failThreshold, recoverThreshold);
              SlotsBalance(es[i], es'[i], i in picks[..|tr.attempts|], tr.ending.Overrun? && i == picks[|tr.attempts|])
    {
      SlotsBalanceExactly(es, picks, tr, emergency, failThreshold, recoverThreshold, i);
    }
  }

  lemma FeedbackStep(es: seq<Entry>, at: seq<nat>, attempts: seq<Attempt>, a: Attempt, emergency: bool,
                     failThreshold: int, recoverThreshold: int)
    requires |attempts| < |at| && InRange(at, |es|)
    ensures var before, i := Feedback(es, at, attempts, emergency, failThreshold, recoverThreshold), at[|attempts|];
            var after := Feedback(es, at, attempts + [a], emergency, failThreshold, recoverThreshold);
            after == Reacted(before[i := Waited(before[i])], i, a.verdict, emergency, failThreshold, recoverThreshold)
  {
    assert (attempts + [a])[..|attempts|] == attempts;
  }

  lemma ChosenAreIndexed(es: seq<Entry>, byName: map<string, nat>)
    requires Indexed(es, byName)
    ensures forall k | 0 <= k < |Chosen(es)| :: Chosen(es)[k].name in byName && byName[Chosen(es)[k].name] < |es|
  {
    SelectMeaning(FlagsOf(es));
    var picks := Select(FlagsOf(es)).picks;
    forall k | 0 <= k < |Chosen(es)| ensures Chosen(es)[k].name in byName && byName[Chosen(es)[k].name] < |es| {
      assert picks[k] in picks;
      assert Chosen(es)[k] == es[picks[k]].config;
    }
  }

  /** With distinct names, as every accepted configuration has, the entries a
      request reports to are the picks of its selection, each at most once. */
  lemma ReportsGoToPicks(es: seq<Entry>, byName: map<string, nat>)
    requires Indexed(es, byName) && Distinct(ConfigsOf(es))
    ensures forall k | 0 <= k < |Chosen(es)| :: Chosen(es)[k].name in byName
    ensures Indices(byName, Chosen(es)) == Select(FlagsOf(es)).picks
    ensures forall j, k | 0 <= j < k < |Chosen(es)| :: Select(FlagsOf(es)).picks[j] < Select(FlagsOf(es)).picks[k]
  {
    ChosenAreIndexed(es, byName);
    SelectMeaning(FlagsOf(es));
    var picks := Select(FlagsOf(es)).picks;
    forall k | 0 <= k < |picks| ensures byName[Chosen(es)[k].name] == picks[k] {
      assert picks[k] in picks;
      assert Chosen(es)[k] == es[picks[k]].config;
      IndexedDistinct(es, byName, picks[k]);
    }
  }
}
