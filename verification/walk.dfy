/** What the fallback loop of internal/dnsserver/server.go does with its
    candidates and its time, against any surroundings. */
module Walking {
  import opened Wrappers

  const SERVFAIL := 2
  const REFUSED := 5

  datatype Reply = Error | Rcode(code: int) {
    /** Ends the search: any response but SERVFAIL and REFUSED. */
    predicate Acceptable() {
      Rcode? && code != SERVFAIL && code != REFUSED
    }
  }

  /** What the surroundings do while one candidate is tried. `noticed`: a context
      past its deadline already reports it at the top of the loop. `wait`: how
      long until a slot is there. `race`: with slot and deadline both ready, the slot is
      taken. `lag`: time from the slot to the reading of the clock. `took` and
      `reply`: the exchange, if it is not cut off. */
  datatype Turn = Turn(noticed: bool, wait: nat, race: bool, lag: nat, took: nat, reply: Reply)

  datatype Attempt = Attempt(timeout: int, verdict: Reply)

  datatype Ending = Answered | Exhausted | Expired | NoSlot | Overrun

  datatype Trace = Trace(attempts: seq<Attempt>, ending: Ending, at: int)

  // ----- One candidate

  predicate SeesExpiry(turn: Turn, now: int, deadline: Option<int>) {
    deadline.Some? && now >= deadline.value && turn.noticed
  }

  /** When BeginAttemptContext returns, and whether with a slot. */
  function SlotWait(turn: Turn, now: int, deadline: Option<int>): (int, bool) {
    match deadline
    case None => (now + turn.wait, true)
    case Some(d) =>
      if now + turn.wait < d then (now + turn.wait, true)
      else (Max(now, d), turn.race && now + turn.wait <= Max(now, d))
  }

  /** The timeout of an attempt begun at `now`; not positive when time is up. */
  function TimeoutAt(now: int, deadline: Option<int>, attemptTimeout: int): int {
    match deadline
    case None => attemptTimeout
    case Some(d) => Min(attemptTimeout, d - now)
  }

  /** An exchange honours its context: it is cut off at the timeout. */
  function Verdict(turn: Turn, timeout: int): Reply {
    if turn.took < timeout then turn.reply else Error
  }

  /** One round of the loop: it ends the loop, or makes an attempt. */
  datatype Round = Stop(ending: Ending, at: int) | Made(attempt: Attempt, at: int)

  function RoundOf(turn: Turn, now: int, deadline: Option<int>, attemptTimeout: int): Round {
    var (ready, granted) := SlotWait(turn, now, deadline);
    var begun := ready + turn.lag;
    var timeout := TimeoutAt(begun, deadline, attemptTimeout);
    if SeesExpiry(turn, now, deadline) then Stop(Expired, now)
    else if !granted then Stop(NoSlot, ready)
    else if deadline.Some? && deadline.value - begun <= 0 then Stop(Overrun, begun)
    else Made(Attempt(timeout, Verdict(turn, timeout)), begun + Min(turn.took, timeout))
  }

  function Prepend(attempts: seq<Attempt>, tr: Trace): Trace {
    Trace(attempts + tr.attempts, tr.ending, tr.at)
  }

  /** The loop over the remaining candidates, one turn for each. */
  function Walk(turns: seq<Turn>, now: int, deadline: Option<int>, attemptTimeout: int): Trace
    decreases |turns|
  {
    if turns == [] then Trace([], Exhausted, now)
    else
      match RoundOf(turns[0], now, deadline, attemptTimeout)
      case Stop(ending, at) => Trace([], ending, at)
      case Made(attempt, at) =>
        if attempt.verdict.Acceptable() then Trace([attempt], Answered, at)
        else Prepend([attempt], Walk(turns[1..], at, deadline, attemptTimeout))
  }

  // ----- What the loop promises

  lemma {:induction false} AttemptsInOrder(turns: seq<Turn>, now: int, deadline: Option<int>, attemptTimeout: int)
    ensures var tr := Walk(turns, now, deadline, attemptTimeout);
            && |tr.attempts| <= |turns|
            && (forall k | 0 <= k < |tr.attempts| ::
                tr.attempts[k].verdict == Verdict(turns[k], tr.attempts[k].timeout))
            && (forall k | 0 <= k < |tr.attempts| :: tr.attempts[k].timeout <= attemptTimeout)
    decreases |turns|
  {
    if turns != [] {
      AttemptsInOrder(turns[1..], RoundOf(turns[0], now, deadline, attemptTimeout).at, deadline, attemptTimeout);
    }
  }

  lemma {:induction false} EndsAtFirstAcceptable(turns: seq<Turn>, now: int, deadline: Option<int>, attemptTimeout: int)
    ensures var tr := Walk(turns, now, deadline, attemptTimeout);
            var n := |tr.attempts|;
            && (tr.ending.Exhausted? <==> n == |turns| && !tr.ending.Answered?)
            && (tr.ending.Answered? <==> n > 0 && tr.attempts[n - 1].verdict.Acceptable())
            && (forall k | 0 <= k < n - 1 :: !tr.attempts[k].verdict.Acceptable())
    decreases |turns|
  {
    if turns != [] {
      EndsAtFirstAcceptable(turns[1..], RoundOf(turns[0], now, deadline, attemptTimeout).at, deadline, attemptTimeout);
      AttemptsInOrder(turns[1..], RoundOf(turns[0], now, deadline, attemptTimeout).at, deadline, attemptTimeout);
    }
  }

  /** First acceptable answer in priority order: the attempts are with the first
      candidates, one each; every attempt but the last of an answered request
      failed; all candidates are tried unless an answer, the deadline or the slot
      wait ends the loop, and none is ever skipped. */
  lemma {:induction false} FirstAcceptableAnswer(turns: seq<Turn>, now: int, deadline: Option<int>, attemptTimeout: int)
    ensures var tr := Walk(turns, now, deadline, attemptTimeout);
            var n := |tr.attempts|;
            && n <= |turns|
            && (forall k | 0 <= k < n :: tr.attempts[k].verdict == Verdict(turns[k], tr.attempts[k].timeout))
            && (forall k | 0 <= k < n - 1 :: !tr.attempts[k].verdict.Acceptable())
            && (tr.ending.Answered? <==> n > 0 && tr.attempts[n - 1].verdict.Acceptable())
            && (tr.ending.Exhausted? <==> n == |turns| && !tr.ending.Answered?)
  {
    AttemptsInOrder(turns, now, deadline, attemptTimeout);
    EndsAtFirstAcceptable(turns, now, deadline, attemptTimeout);
  }

  /** The time the candidates can take at most. */
  function Longest(turns: seq<Turn>, attemptTimeout: int): int
    decreases |turns|
  {
    if turns == [] then 0
    else turns[0].wait + turns[0].lag + attemptTimeout + Longest(turns[1..], attemptTimeout)
  }

  ghost predicate FitsBudget(turns: seq<Turn>, now: int, deadline: Option<int>, attemptTimeout: int) {
    deadline.Some? ==> attemptTimeout > 0 && now + Longest(turns, attemptTimeout) <= deadline.value
  }

  lemma {:induction false} LongestNonNegative(turns: seq<Turn>, attemptTimeout: int)
    requires attemptTimeout > 0
    ensures Longest(turns, attemptTimeout) >= 0
    decreases |turns|
  {
    if turns != [] {
      LongestNonNegative(turns[1..], attemptTimeout);
    }
  }

  /** A deadline beyond the longest time the candidates can take plays no part. */
  lemma {:induction false} DeadlineNotHit(turns: seq<Turn>, now: int, deadline: Option<int>, attemptTimeout: int)
    requires FitsBudget(turns, now, deadline, attemptTimeout)
    ensures Walk(turns, now, deadline, attemptTimeout) == Walk(turns, now, None, attemptTimeout)
    decreases |turns|
  {
    if deadline.Some? && turns != [] {
      LongestNonNegative(turns[1..], attemptTimeout);
      var round := RoundOf(turns[0], now, None, attemptTimeout);
      assert RoundOf(turns[0], now, deadline, attemptTimeout) == round;
      DeadlineNotHit(turns[1..], round.at, deadline, attemptTimeout);
    }
  }

  /** With a budget that covers all waits and attempts, or none at all, the loop
      answers exactly when some candidate would within the attempt timeout, and
      the winner is the least such candidate. */
  lemma {:induction false} WinnerIsLeast(turns: seq<Turn>, now: int, deadline: Option<int>, attemptTimeout: int)
    requires FitsBudget(turns, now, deadline, attemptTimeout)
    ensures var tr := Walk(turns, now, deadline, attemptTimeout);
            && (tr.ending.Answered? <==> exists k :: 0 <= k < |turns| && Verdict(turns[k], attemptTimeout).Acceptable())
            && (tr.ending.Answered? ==>
                  && 0 < |tr.attempts| <= |turns|
                  && Verdict(turns[|tr.attempts| - 1], attemptTimeout).Acceptable()
                  && forall k | 0 <= k < |tr.attempts| - 1 :: !Verdict(turns[k], attemptTimeout).Acceptable())
            && (tr.ending.Answered? || tr.ending.Exhausted?)
  {
    DeadlineNotHit(turns, now, deadline, attemptTimeout);
    FirstAcceptableAnswer(turns, now, None, attemptTimeout);
    FullTimeouts(turns, now, attemptTimeout);
  }

  lemma {:induction false} FullTimeouts(turns: seq<Turn>, now: int, attemptTimeout: int)
    ensures var tr := Walk(turns, now, None, attemptTimeout);
            && (tr.ending.Answered? || tr.ending.Exhausted?)
            && forall k | 0 <= k < |tr.attempts| :: tr.attempts[k].timeout == attemptTimeout
    decreases |turns|
  {
    if turns != [] {
      FullTimeouts(turns[1..], now + turns[0].wait + turns[0].lag + Min(turns[0].took, attemptTimeout), attemptTimeout);
    }
  }

  /** Time budget: whatever the slot waits and the number of candidates, the loop
      ends by the deadline plus one bookkeeping lag; with free bookkeeping, by
      the deadline. */
  lemma {:induction false} EndsByDeadline(turns: seq<Turn>, now: int, deadline: int, attemptTimeout: int, lag: nat)
    requires now <= deadline && 0 < attemptTimeout && forall k | 0 <= k < |turns| :: turns[k].lag <= lag
    ensures Walk(turns, now, Some(deadline), attemptTimeout).at <= deadline + lag
    decreases |turns|
  {
    if turns != [] {
      var round := RoundOf(turns[0], now, Some(deadline), attemptTimeout);
      if round.Made? {
        EndsByDeadline(turns[1..], round.at, deadline, attemptTimeout, lag);
      }
    }
  }

  // ----- Exactly how a request ends, on its surroundings

  /** The loop gets a slot in this round: the deadline is not noticed at the top,
      and the wait ends before the deadline or wins the race with it. */
  predicate GetsSlot(turn: Turn, now: int, deadline: Option<int>) {
    deadline.Some? ==>
      && !(now >= deadline.value && turn.noticed)
      && (now + turn.wait < deadline.value || (turn.race && now + turn.wait <= Max(now, deadline.value)))
  }

  /** When the clock is read after the slot. */
  function Begun(turn: Turn, now: int): int {
    now + turn.wait + turn.lag
  }

  /** The exit that forgets the slot: one is granted, and the time is up when the
      clock is read after it. */
  predicate TimeUp(turn: Turn, now: int, deadline: Option<int>) {
    GetsSlot(turn, now, deadline) && deadline.Some? && Begun(turn, now) >= deadline.value
  }

  predicate InTime(turn: Turn, now: int, deadline: Option<int>) {
    GetsSlot(turn, now, deadline) && (deadline.Some? ==> Begun(turn, now) < deadline.value)
  }

  /** The time the exchange has. */
  function Room(turn: Turn, now: int, deadline: Option<int>, attemptTimeout: int): int {
    if deadline.None? then attemptTimeout else Min(attemptTimeout, deadline.value - Begun(turn, now))
  }

  /** The exchange brings a response in time that is neither SERVFAIL (2) nor
      REFUSED (5), the codes of section 4.1.1 of RFC 1035. */
  predicate Delivers(turn: Turn, now: int, deadline: Option<int>, attemptTimeout: int) {
    && InTime(turn, now, deadline) && turn.took < Room(turn, now, deadline, attemptTimeout)
    && turn.reply.Rcode? && turn.reply.code != 2 && turn.reply.code != 5
  }

  /** An exchange is made and does not bring one, so the loop goes on. */
  predicate GoesOn(turn: Turn, now: int, deadline: Option<int>, attemptTimeout: int) {
    InTime(turn, now, deadline) && !Delivers(turn, now, deadline, attemptTimeout)
  }

  /** The clock after an exchange, cut off at its timeout. */
  function ClockAfter(turn: Turn, now: int, deadline: Option<int>, attemptTimeout: int): int {
    Begun(turn, now) + Min(turn.took, Room(turn, now, deadline, attemptTimeout))
  }

  /** The clock at the top of round k, if the rounds before it all go on. */
  function StartOf(turns: seq<Turn>, k: nat, now: int, deadline: Option<int>, attemptTimeout: int): int
    requires k <= |turns|
  {
    if k == 0 then now
    else
      var before := StartOf(turns, k - 1, now, deadline, attemptTimeout);
      ClockAfter(turns[k - 1], before, deadline, attemptTimeout)
  }

  ghost predicate GoOnUntil(turns: seq<Turn>, k: nat, now: int, deadline: Option<int>, attemptTimeout: int)
    requires k <= |turns|
  {
    forall j | 0 <= j < k ::
      GoesOn(turns[j], StartOf(turns, j, now, deadline, attemptTimeout), deadline, attemptTimeout)
  }

  ghost predicate OverrunsAt(turns: seq<Turn>, k: nat, now: int, deadline: Option<int>, attemptTimeout: int)
    requires k < |turns|
  {
    && GoOnUntil(turns, k, now, deadline, attemptTimeout)
    && TimeUp(turns[k], StartOf(turns, k, now, deadline, attemptTimeout), deadline)
  }

  ghost predicate DeliversAt(turns: seq<Turn>, k: nat, now: int, deadline: Option<int>, attemptTimeout: int)
    requires k < |turns|
  {
    && GoOnUntil(turns, k, now, deadline, attemptTimeout)
    && Delivers(turns[k], StartOf(turns, k, now, deadline, attemptTimeout), deadline, attemptTimeout)
  }

  /** What a round is, by these guards. */
  lemma RoundKinds(turn: Turn, now: int, deadline: Option<int>, attemptTimeout: int)
    ensures RoundOf(turn, now, deadline, attemptTimeout) ==
            if InTime(turn, now, deadline) then
              var room := Room(turn, now, deadline, attemptTimeout);
              Made(Attempt(room, if turn.took < room then turn.reply else Error),
                   ClockAfter(turn, now, deadline, attemptTimeout))
            else if TimeUp(turn, now, deadline) then Stop(Overrun, Begun(turn, now))
            else if now >= deadline.value && turn.noticed then Stop(Expired, now)
            else Stop(NoSlot, Max(now, deadline.value))
  {
  }

  lemma {:induction false} StartOfRest(turns: seq<Turn>, k: nat, now: int, deadline: Option<int>, attemptTimeout: int)
    requires 0 < k <= |turns|
    ensures var next := ClockAfter(turns[0], now, deadline, attemptTimeout);
            StartOf(turns, k, now, deadline, attemptTimeout)
            == StartOf(turns[1..], k - 1, next, deadline, attemptTimeout)
  {
    if k > 1 {
      StartOfRest(turns, k - 1, now, deadline, attemptTimeout);
    }
  }

  lemma GoOnUntilRest(turns: seq<Turn>, k: nat, now: int, deadline: Option<int>, attemptTimeout: int)
    requires 0 < k <= |turns|
    ensures var next := ClockAfter(turns[0], now, deadline, attemptTimeout);
            GoOnUntil(turns, k, now, deadline, attemptTimeout) <==>
              && GoesOn(turns[0], now, deadline, attemptTimeout)
              && GoOnUntil(turns[1..], k - 1, next, deadline, attemptTimeout)
  {
    var rest, at := turns[1..], ClockAfter(turns[0], now, deadline, attemptTimeout);
    forall j | 0 < j <= k
      ensures StartOf(turns, j, now, deadline, attemptTimeout) == StartOf(rest, j - 1, at, deadline, attemptTimeout)
    {
      StartOfRest(turns, j, now, deadline, attemptTimeout);
    }
    if GoOnUntil(turns, k, now, deadline, attemptTimeout) {
      forall j | 0 <= j < k - 1
        ensures GoesOn(rest[j], StartOf(rest, j, at, deadline, attemptTimeout), deadline, attemptTimeout)
      {
        assert GoesOn(turns[j + 1], StartOf(turns, j + 1, now, deadline, attemptTimeout), deadline, attemptTimeout);
      }
    }
    if GoesOn(turns[0], now, deadline, attemptTimeout) && GoOnUntil(rest, k - 1, at, deadline, attemptTimeout) {
      forall j | 0 <= j < k
        ensures GoesOn(turns[j], StartOf(turns, j, now, deadline, attemptTimeout), deadline, attemptTimeout)
      {
        assert j > 0 ==>
            GoesOn(rest[j - 1], StartOf(rest, j - 1, at, deadline, attemptTimeout), deadline, attemptTimeout);
      }
    }
  }

  /** The loop stops at round k: the rounds before it all go on, and it does not. */
  ghost predicate StopsAt(turns: seq<Turn>, k: nat, now: int, deadline: Option<int>, attemptTimeout: int)
    requires k <= |turns|
  {
    && GoOnUntil(turns, k, now, deadline, attemptTimeout)
    && (k < |turns| ==> !GoesOn(turns[k], StartOf(turns, k, now, deadline, attemptTimeout), deadline, attemptTimeout))
  }

  /** How many attempts were made, what ended the loop, and when. */
  ghost predicate EndsAs(tr: Trace, attempts: nat, ending: Ending, at: int) {
    |tr.attempts| == attempts && tr.ending == ending && tr.at == at
  }

  /** The end of a loop that stops at round k. */
  ghost predicate EndsAt(tr: Trace, turns: seq<Turn>, k: nat, now: int, deadline: Option<int>, attemptTimeout: int)
    requires k <= |turns|
  {
    var start := StartOf(turns, k, now, deadline, attemptTimeout);
    if k == |turns| then EndsAs(tr, k, Exhausted, start)
    else if Delivers(turns[k], start, deadline, attemptTimeout) then
      EndsAs(tr, k + 1, Answered, Begun(turns[k], start) + turns[k].took) && tr.attempts[k].verdict == turns[k].reply
    else if TimeUp(turns[k], start, deadline) then EndsAs(tr, k, Overrun, Begun(turns[k], start))
    else if deadline.Some? && start >= deadline.value && turns[k].noticed then EndsAs(tr, k, Expired, start)
    else deadline.Some? && EndsAs(tr, k, NoSlot, Max(start, deadline.value))
  }

  lemma StopsAtOnce(turns: seq<Turn>, now: int, deadline: Option<int>, attemptTimeout: int)
    requires turns == [] || !GoesOn(turns[0], now, deadline, attemptTimeout)
    ensures EndsAt(Walk(turns, now, deadline, attemptTimeout), turns, 0, now, deadline, attemptTimeout)
  {
    if turns != [] {
      RoundKinds(turns[0], now, deadline, attemptTimeout);
    }
  }

  lemma WalkGoesOn(turns: seq<Turn>, now: int, deadline: Option<int>, attemptTimeout: int)
    requires turns != [] && GoesOn(turns[0], now, deadline, attemptTimeout)
    ensures var tr := Walk(turns, now, deadline, attemptTimeout);
            var next := ClockAfter(turns[0], now, deadline, attemptTimeout);
            var rest := Walk(turns[1..], next, deadline, attemptTimeout);
            |tr.attempts| == |rest.attempts| + 1 && tr.attempts[1..] == rest.attempts
            && tr.ending == rest.ending && tr.at == rest.at
  {
    RoundKinds(turns[0], now, deadline, attemptTimeout);
  }

  /** Exactly how every request ends: with the number of attempts, the reason and
      the time that its first round not to go on determines. */
  lemma {:induction false} EndsExactly(turns: seq<Turn>, k: nat, now: int, deadline: Option<int>, attemptTimeout: int)
    requires k <= |turns| && StopsAt(turns, k, now, deadline, attemptTimeout)
    ensures EndsAt(Walk(turns, now, deadline, attemptTimeout), turns, k, now, deadline, attemptTimeout)
    decreases k
  {
    if k == 0 {
      StopsAtOnce(turns, now, deadline, attemptTimeout);
    } else {
      var next := ClockAfter(turns[0], now, deadline, attemptTimeout);
      StopsAtRest(turns, k, now, deadline, attemptTimeout);
      EndsExactly(turns[1..], k - 1, next, deadline, attemptTimeout);
      EndsAtRest(turns, k, now, deadline, attemptTimeout);
    }
  }

  lemma StopsAtRest(turns: seq<Turn>, k: nat, now: int, deadline: Option<int>, attemptTimeout: int)
    requires 0 < k <= |turns| && StopsAt(turns, k, now, deadline, attemptTimeout)
    ensures GoesOn(turns[0], now, deadline, attemptTimeout)
    ensures StopsAt(turns[1..], k - 1, ClockAfter(turns[0], now, deadline, attemptTimeout), deadline, attemptTimeout)
  {
    GoOnUntilRest(turns, k, now, deadline, attemptTimeout);
    StartOfRest(turns, k, now, deadline, attemptTimeout);
  }

  lemma EndsAtRest(turns: seq<Turn>, k: nat, now: int, deadline: Option<int>, attemptTimeout: int)
    requires 0 < k <= |turns| && GoesOn(turns[0], now, deadline, attemptTimeout)
    requires var next := ClockAfter(turns[0], now, deadline, attemptTimeout);
             EndsAt(Walk(turns[1..], next, deadline, attemptTimeout), turns[1..], k - 1, next, deadline, attemptTimeout)
    ensures EndsAt(Walk(turns, now, deadline, attemptTimeout), turns, k, now, deadline, attemptTimeout)
  {
    StartOfRest(turns, k, now, deadline, attemptTimeout);
    WalkGoesOn(turns, now, deadline, attemptTimeout);
  }

  /** Every request has such a round, and only one. */
  lemma {:induction false} StopExists(turns: seq<Turn>, now: int, deadline: Option<int>, attemptTimeout: int)
    returns (k: nat)
    ensures k <= |turns| && StopsAt(turns, k, now, deadline, attemptTimeout)
    decreases |turns|
  {
    if turns == [] || !GoesOn(turns[0], now, deadline, attemptTimeout) {
      k := 0;
    } else {
      var rest := StopExists(turns[1..], ClockAfter(turns[0], now, deadline, attemptTimeout), deadline, attemptTimeout);
      k := rest + 1;
      GoOnUntilRest(turns, k, now, deadline, attemptTimeout);
      StartOfRest(turns, k, now, deadline, attemptTimeout);
    }
  }

  /** Exactly the requests that lose a slot: at round k of the loop, and so with
      k attempts made, if and only if the rounds before it all go on and the time
      is up between slot and clock in round k. */
  lemma {:induction false} OverrunExactly(turns: seq<Turn>, k: nat, now: int, deadline: Option<int>,
                                          attemptTimeout: int)
    requires k < |turns|
    ensures var tr := Walk(turns, now, deadline, attemptTimeout);
            tr.ending.Overrun? && |tr.attempts| == k <==> OverrunsAt(turns, k, now, deadline, attemptTimeout)
  {
    var stop := StopExists(turns, now, deadline, attemptTimeout);
    EndsExactly(turns, stop, now, deadline, attemptTimeout);
    if OverrunsAt(turns, k, now, deadline, attemptTimeout) {
      assert StopsAt(turns, k, now, deadline, attemptTimeout);
      EndsExactly(turns, k, now, deadline, attemptTimeout);
    }
  }

  /** Over all rounds: some slot is lost if and only if some round runs out of time
      that way. */
  lemma SlotLostExactly(turns: seq<Turn>, now: int, deadline: Option<int>, attemptTimeout: int)
    ensures Walk(turns, now, deadline, attemptTimeout).ending.Overrun? <==>
            exists k: nat :: k < |turns| && OverrunsAt(turns, k, now, deadline, attemptTimeout)
  {
    var tr := Walk(turns, now, deadline, attemptTimeout);
    FirstAcceptableAnswer(turns, now, deadline, attemptTimeout);
    if tr.ending.Overrun? {
      OverrunExactly(turns, |tr.attempts|, now, deadline, attemptTimeout);
    }
    forall k: nat | k < |turns| && OverrunsAt(turns, k, now, deadline, attemptTimeout) ensures tr.ending.Overrun? {
      OverrunExactly(turns, k, now, deadline, attemptTimeout);
    }
  }

  /** In particular none is lost without a slot wait and without a lag. */
  lemma {:induction false} NoOverrunWithoutDelay(turns: seq<Turn>, now: int, deadline: int, attemptTimeout: int)
    requires 0 < attemptTimeout
    requires forall k | 0 <= k < |turns| :: turns[k].noticed && turns[k].wait == 0 && turns[k].lag == 0
    ensures !Walk(turns, now, Some(deadline), attemptTimeout).ending.Overrun?
  {
    SlotLostExactly(turns, now, Some(deadline), attemptTimeout);
  }

  // ----- How many candidates fit into the budget

  function CeilDiv(x: nat, y: nat): nat
    requires y > 0
  {
    (x + y - 1) / y
  }

  /** Every exchange hangs, no slot is waited for and bookkeeping is free. */
  ghost predicate AllHang(turns: seq<Turn>, attemptTimeout: int) {
    forall k | 0 <= k < |turns| ::
      turns[k].noticed && turns[k].wait == 0 && turns[k].lag == 0 && turns[k].took >= attemptTimeout
  }

  lemma HangStep(turns: seq<Turn>, now: int, deadline: int, attemptTimeout: nat)
    requires 0 < attemptTimeout && AllHang(turns, attemptTimeout) && turns != [] && now < deadline
    ensures var timeout := Min(attemptTimeout, deadline - now);
            var rest := Walk(turns[1..], now + timeout, Some(deadline), attemptTimeout);
            Walk(turns, now, Some(deadline), attemptTimeout) == Prepend([Attempt(timeout, Error)], rest)
  {
  }

  /** q full attempts and r more. */
  function Budget(q: nat, r: nat, attemptTimeout: nat): nat {
    if q == 0 then r else attemptTimeout + Budget(q - 1, r, attemptTimeout)
  }

  lemma {:induction false} BudgetIs(q: nat, r: nat, attemptTimeout: nat)
    ensures Budget(q, r, attemptTimeout) == q * attemptTimeout + r
  {
    if q > 0 {
      BudgetIs(q - 1, r, attemptTimeout);
    }
  }

  /** n candidates, a budget of q full attempts and r more. */
  ghost predicate Bought(tr: Trace, n: nat, q: nat, r: nat, attemptTimeout: nat) {
    var fit := q + if r > 0 then 1 else 0;
    && |tr.attempts| == Min(n, fit)
    && (forall k | 0 <= k < |tr.attempts| :: tr.attempts[k].timeout == if k < q then attemptTimeout else r)
    && tr.ending == (if fit < n then Expired else Exhausted)
  }

  lemma BoughtOneMore(rest: Trace, n: nat, q: nat, r: nat, attemptTimeout: nat)
    requires n > 0 && (q > 0 || r > 0)
    requires if q > 0 then Bought(rest, n - 1, q - 1, r, attemptTimeout) else Bought(rest, n - 1, 0, 0, attemptTimeout)
    ensures var first := Attempt(if q > 0 then attemptTimeout else r, Error);
            Bought(Prepend([first], rest), n, q, r, attemptTimeout)
  {
  }

  /** A round with some budget left, and the rounds after it. */
  lemma HangOnce(turns: seq<Turn>, now: int, q: nat, r: nat, attemptTimeout: nat)
    requires r < attemptTimeout && AllHang(turns, attemptTimeout) && turns != [] && (q > 0 || r > 0)
    ensures var first := if q > 0 then attemptTimeout else r;
            var deadline := Some(now + Budget(q, r, attemptTimeout));
            Walk(turns, now, deadline, attemptTimeout)
            == Prepend([Attempt(first, Error)], Walk(turns[1..], now + first, deadline, attemptTimeout))
    ensures Budget(q, r, attemptTimeout)
            == if q > 0 then attemptTimeout + Budget(q - 1, r, attemptTimeout) else r + Budget(0, 0, attemptTimeout)
  {
    HangStep(turns, now, now + Budget(q, r, attemptTimeout), attemptTimeout);
  }

  /** No candidate or no budget left. */
  lemma HangNever(turns: seq<Turn>, now: int, attemptTimeout: nat)
    requires AllHang(turns, attemptTimeout)
    ensures Walk(turns, now, Some(now), attemptTimeout) == Trace([], if turns == [] then Exhausted else Expired, now)
  {
  }

  lemma HangDone(turns: seq<Turn>, now: int, q: nat, r: nat, attemptTimeout: nat)
    requires AllHang(turns, attemptTimeout) && (turns == [] || (q == 0 && r == 0))
    ensures Bought(Walk(turns, now, Some(now + Budget(q, r, attemptTimeout)), attemptTimeout), |turns|, q, r,
                   attemptTimeout)
  {
    if turns != [] {
      HangNever(turns, now, attemptTimeout);
    }
  }

  /** Bought by the walk over these candidates with that budget from now on. */
  ghost predicate Buys(turns: seq<Turn>, now: int, q: nat, r: nat, attemptTimeout: nat) {
    Bought(Walk(turns, now, Some(now + Budget(q, r, attemptTimeout)), attemptTimeout), |turns|, q, r, attemptTimeout)
  }

  lemma HangMore(turns: seq<Turn>, now: int, q: nat, r: nat, attemptTimeout: nat)
    requires r < attemptTimeout && AllHang(turns, attemptTimeout) && turns != [] && q > 0
    requires Buys(turns[1..], now + attemptTimeout, q - 1, r, attemptTimeout)
    ensures Buys(turns, now, q, r, attemptTimeout)
  {
    var rest := Walk(turns[1..], now + attemptTimeout, Some(now + Budget(q, r, attemptTimeout)), attemptTimeout);
    HangOnce(turns, now, q, r, attemptTimeout);
    BoughtOneMore(rest, |turns|, q, r, attemptTimeout);
  }

  lemma HangLast(turns: seq<Turn>, now: int, r: nat, attemptTimeout: nat)
    requires 0 < r < attemptTimeout && AllHang(turns, attemptTimeout) && turns != []
    requires Buys(turns[1..], now + r, 0, 0, attemptTimeout)
    ensures Buys(turns, now, 0, r, attemptTimeout)
  {
    var rest := Walk(turns[1..], now + r, Some(now + Budget(0, r, attemptTimeout)), attemptTimeout);
    HangOnce(turns, now, 0, r, attemptTimeout);
    BoughtOneMore(rest, |turns|, 0, r, attemptTimeout);
  }

  lemma {:induction false} HangingAttempts(turns: seq<Turn>, now: int, q: nat, r: nat, attemptTimeout: nat)
    requires r < attemptTimeout && AllHang(turns, attemptTimeout)
    ensures Buys(turns, now, q, r, attemptTimeout)
    decreases |turns|
  {
    if turns == [] || (q == 0 && r == 0) {
      HangDone(turns, now, q, r, attemptTimeout);
    } else if q > 0 {
      HangingAttempts(turns[1..], now + attemptTimeout, q - 1, r, attemptTimeout);
      HangMore(turns, now, q, r, attemptTimeout);
    } else {
      HangingAttempts(turns[1..], now + r, 0, 0, attemptTimeout);
      HangLast(turns, now, r, attemptTimeout);
    }
  }

  lemma CeilFromQuotient(budget: nat, attemptTimeout: nat)
    requires 0 < attemptTimeout
    ensures var q, r := budget / attemptTimeout, budget % attemptTimeout;
            CeilDiv(budget, attemptTimeout) == q + if r > 0 then 1 else 0
  {
    var q, r := budget / attemptTimeout, budget % attemptTimeout;
    if r > 0 {
      DivUnique(budget + attemptTimeout - 1, attemptTimeout, q + 1, r - 1);
    } else {
      DivUnique(budget + attemptTimeout - 1, attemptTimeout, q, attemptTimeout - 1);
    }
  }

  lemma {:induction false} LessProduct(a: nat, b: nat, y: nat)
    requires a < b
    ensures a * y + y <= b * y
  {
    if a + 1 < b {
      LessProduct(a, b - 1, y);
    }
  }

  lemma DivUnique(x: nat, y: nat, q: nat, r: nat)
    requires r < y && x == q * y + r
    ensures x / y == q
  {
    var d := x / y;
    if d < q {
      LessProduct(d, q, y);
    } else if q < d {
      LessProduct(q, d, y);
    }
  }

  lemma BudgetOfQuotient(budget: nat, attemptTimeout: nat)
    requires 0 < attemptTimeout
    ensures Budget(budget / attemptTimeout, budget % attemptTimeout, attemptTimeout) == budget
  {
    BudgetIs(budget / attemptTimeout, budget % attemptTimeout, attemptTimeout);
  }

  /** With all exchanges hanging, exactly min(n, ceil(budget / attempt))
      candidates are tried, the first floor(budget / attempt) of them get a full
      attempt timeout, and a last one gets the remainder. */
  lemma {:induction false} BudgetBuysAttempts(turns: seq<Turn>, now: int, budget: nat, attemptTimeout: nat)
    requires 0 < attemptTimeout && AllHang(turns, attemptTimeout)
    ensures var tr := Walk(turns, now, Some(now + budget), attemptTimeout);
            && |tr.attempts| == Min(|turns|, CeilDiv(budget, attemptTimeout))
            && (forall k | 0 <= k < |tr.attempts| ::
                  tr.attempts[k].timeout
                  == if k < budget / attemptTimeout then attemptTimeout else budget % attemptTimeout)
            && tr.ending == (if CeilDiv(budget, attemptTimeout) < |turns| then Expired else Exhausted)
  {
    var q, r := budget / attemptTimeout, budget % attemptTimeout;
    CeilFromQuotient(budget, attemptTimeout);
    BudgetOfQuotient(budget, attemptTimeout);
    HangingAttempts(turns, now, q, r, attemptTimeout);
  }

  // ----- The result

  /** A response, at least one joined error, or neither of the two. */
  datatype Result = Response(from: nat, code: int) | Errors(count: nat) | Neither

  function ErrorCount(tr: Trace): nat {
    |tr.attempts| + if tr.ending.Expired? || tr.ending.NoSlot? then 1 else 0
  }

  function ResultOf(tr: Trace): Result
    requires tr.ending.Answered? ==> tr.attempts != [] && tr.attempts[|tr.attempts| - 1].verdict.Rcode?
  {
    if tr.ending.Answered? then Response(|tr.attempts| - 1, tr.attempts[|tr.attempts| - 1].verdict.code)
    else if ErrorCount(tr) > 0 then Errors(ErrorCount(tr))
    else Neither
  }

  /** The result of every request, on its surroundings: the code of the candidate
      at which the loop stops if that one delivers; otherwise one error for each
      attempt made and one for an expiry or a slot wait that ended the loop. */
  lemma ResultExactly(turns: seq<Turn>, k: nat, now: int, deadline: Option<int>, attemptTimeout: int)
    requires k <= |turns| && StopsAt(turns, k, now, deadline, attemptTimeout)
    ensures var tr := Walk(turns, now, deadline, attemptTimeout);
            var start := StartOf(turns, k, now, deadline, attemptTimeout);
            && (tr.ending.Answered? ==> tr.attempts != [] && tr.attempts[|tr.attempts| - 1].verdict.Rcode?)
            && ResultOf(tr) ==
               if k < |turns| && Delivers(turns[k], start, deadline, attemptTimeout) then
                 Response(k, turns[k].reply.code)
               else if k == |turns| || TimeUp(turns[k], start, deadline) then if k == 0 then Neither else Errors(k)
               else Errors(k + 1)
  {
    EndsExactly(turns, k, now, deadline, attemptTimeout);
  }

  /** A response, exactly: the first candidate that delivers, and its code. */
  lemma ResponseExactly(turns: seq<Turn>, k: nat, code: int, now: int, deadline: Option<int>, attemptTimeout: int)
    ensures var tr := Walk(turns, now, deadline, attemptTimeout);
            && (tr.ending.Answered? ==> tr.attempts != [] && tr.attempts[|tr.attempts| - 1].verdict.Rcode?)
            && (ResultOf(tr) == Response(k, code) <==>
                k < |turns| && DeliversAt(turns, k, now, deadline, attemptTimeout) && turns[k].reply.code == code)
  {
    var stop := StopExists(turns, now, deadline, attemptTimeout);
    ResultExactly(turns, stop, now, deadline, attemptTimeout);
    if k < |turns| && DeliversAt(turns, k, now, deadline, attemptTimeout) {
      assert StopsAt(turns, k, now, deadline, attemptTimeout);
      ResultExactly(turns, k, now, deadline, attemptTimeout);
    }
  }

  /** Neither response nor error, exactly: there are no candidates, or the time is
      up between slot and clock for the first one. */
  lemma {:induction false} NeitherExactly(turns: seq<Turn>, now: int, deadline: Option<int>, attemptTimeout: int)
    ensures var tr := Walk(turns, now, deadline, attemptTimeout);
            && (tr.ending.Answered? ==> tr.attempts != [] && tr.attempts[|tr.attempts| - 1].verdict.Rcode?)
            && (ResultOf(tr).Neither? <==> turns == [] || TimeUp(turns[0], now, deadline))
  {
    var stop := StopExists(turns, now, deadline, attemptTimeout);
    ResultExactly(turns, stop, now, deadline, attemptTimeout);
    if turns != [] && stop > 0 {
      assert GoesOn(turns[0], StartOf(turns, 0, now, deadline, attemptTimeout), deadline, attemptTimeout);
    }
  }

  /** Such a request exists: the slot is free only when the time is up. */
  lemma NeitherHappens()
    ensures ResultOf(Walk([Turn(true, 5, true, 0, 1, Rcode(0))], 0, Some(5), 3)) == Neither
  {
  }
}
