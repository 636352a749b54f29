/** The candidate filter of Manager.Candidates, as a function of the in-service
    readings it takes of the entries, in priority order. */
module Selection {
  import opened Health

  datatype Choice = Choice(picks: seq<nat>, emergency: bool)

  /** The in-service readings of health records. */
  function InService(hs: seq<Snapshot>): seq<bool> {
    seq(|hs|, i requires 0 <= i < |hs| => !hs[i].state.Out())
  }

  /** Indices of the true flags. */
  function Positions(flags: seq<bool>): seq<nat> {
    if flags == [] then []
    else
      var n := |flags| - 1;
      Positions(flags[..n]) + if flags[n] then [n] else []
  }

  function Everyone(n: nat): seq<nat> {
    seq(n, i => i)
  }

  function Select(flags: seq<bool>): Choice {
    if Positions(flags) != [] then Choice(Positions(flags), false)
    else Choice(Everyone(|flags|), true)
  }

  ghost predicate InRange(picks: seq<nat>, n: nat) {
    forall k | 0 <= k < |picks| :: picks[k] < n
  }

  ghost predicate Increasing(picks: seq<nat>) {
    forall a, b | 0 <= a < b < |picks| :: picks[a] < picks[b]
  }

  lemma {:induction false} PositionsMembers(flags: seq<bool>)
    ensures forall i :: i in Positions(flags) <==> 0 <= i < |flags| && flags[i]
  {
    if flags != [] {
      PositionsMembers(flags[..|flags| - 1]);
    }
  }

  lemma {:induction false} PositionsIncrease(flags: seq<bool>)
    ensures Increasing(Positions(flags))
  {
    if flags != [] {
      var n := |flags| - 1;
      var p, q := Positions(flags), Positions(flags[..n]);
      PositionsIncrease(flags[..n]);
      PositionsMembers(flags[..n]);
      forall a, b | 0 <= a < b < |p| ensures p[a] < p[b] {
        assert q[a] in q;
      }
    }
  }

  lemma {:induction false} EveryoneIs(n: nat)
    ensures Increasing(Everyone(n)) && forall i :: i in Everyone(n) <==> 0 <= i < n
  {
    forall i | 0 <= i < n ensures i in Everyone(n) {
      assert Everyone(n)[i] == i;
    }
  }

  lemma {:induction false} NoPositions(flags: seq<bool>)
    ensures Positions(flags) == [] <==> forall i | 0 <= i < |flags| :: !flags[i]
  {
    if flags != [] {
      var n := |flags| - 1;
      NoPositions(flags[..n]);
      assert forall i | 0 <= i < n :: flags[..n][i] == flags[i];
    }
  }

  /** A normal selection is exactly the flagged indices, an emergency selection
      is everyone and happens exactly when no flag is up; order is priority. */
  lemma {:induction false} SelectMeaning(flags: seq<bool>)
    ensures var c := Select(flags);
            && Increasing(c.picks)
            && (forall i <- c.picks :: i < |flags|)
            && (c.emergency <==> forall i | 0 <= i < |flags| :: !flags[i])
            && (forall i | 0 <= i < |flags| :: i in c.picks <==> c.emergency || flags[i])
            && (flags != [] ==> c.picks != [])
  {
    NoPositions(flags);
    PositionsMembers(flags);
    PositionsIncrease(flags);
    EveryoneIs(|flags|);
  }

  /** The active upstream is the first flagged one, or the very first. */
  lemma ActiveMeaning(flags: seq<bool>)
    requires flags != []
    ensures var a := Select(flags).picks[0];
            && a < |flags|
            && (flags[a] || a == 0)
            && (forall i | 0 <= i < a :: !flags[i])
            && (!flags[a] ==> forall i | 0 <= i < |flags| :: !flags[i])
  {
    SelectMeaning(flags);
    var c := Select(flags);
    assert c.picks[0] in c.picks;
  }

  /** The active upstream among these records: the first in service, or the first of
      all when none is. */
  ghost predicate IsActive(hs: seq<Snapshot>, a: nat) {
    && a < |hs|
    && ((!hs[a].state.Down? && !hs[a].state.Recovering?
         && forall i | 0 <= i < a :: hs[i].state.Down? || hs[i].state.Recovering?)
        || (a == 0 && forall i | 0 <= i < |hs| :: hs[i].state.Down? || hs[i].state.Recovering?))
  }

  lemma FirstPickIsActive(hs: seq<Snapshot>)
    requires hs != []
    ensures Select(InService(hs)).picks != [] && IsActive(hs, Select(InService(hs)).picks[0])
  {
    ActiveMeaning(InService(hs));
    var a := Select(InService(hs)).picks[0];
    assert forall i | 0 <= i < |hs| :: InService(hs)[i] <==> !(hs[i].state.Down? || hs[i].state.Recovering?);
  }

  /** In terms of the states: a normal selection is exactly the upstreams that are
      Unknown, Healthy or Suspect; emergency means all are Down or Recovering. */
  lemma SelectionByState(hs: seq<Snapshot>)
    ensures var c := Select(InService(hs));
            && (c.emergency <==> forall i | 0 <= i < |hs| :: hs[i].state == Down || hs[i].state == Recovering)
            && (forall i | 0 <= i < |hs| :: i in c.picks <==>
                  c.emergency || hs[i].state == Unknown || hs[i].state == Healthy || hs[i].state == Suspect)
  {
    SelectMeaning(InService(hs));
    assert forall i | 0 <= i < |hs| :: InService(hs)[i] <==> !(hs[i].state == Down || hs[i].state == Recovering);
  }
}
