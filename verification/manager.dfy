/** The failover manager (internal/failover/state.go): entries, selection,
    reports, attempt slots and the cached active upstream. Each method is one
    call without interference; concurrent callers are in Proxy. An entry pointer
    of the source is an index into `entries` here. */
module Failover {
  import opened Wrappers
  import opened Health
  import opened Selection
  import opened Config
  import opened Sorting

  const SLOTS := 16

  /** One element of Manager.Snapshots(). */
  datatype Row = Row(name: string, priority: int, protocol: string, endpoint: (string, int), health: Snapshot) {
    function Server(): (string, (string, int), string) {
      (name, endpoint, protocol)
    }
  }

  function RowFor(u: Upstream, h: Snapshot): Row {
    Row(u.name, u.priority, u.protocol, u.Endpoint(), h)
  }

  /** "active upstream changed" */
  datatype Line = Line(from: string, to: string)

  // ----- Inheriting health at a reload

  /** Index of the last row with a name: what the name-keyed map ends up with. */
  function LastNamed(rows: seq<Row>, name: string): Option<nat> {
    if rows == [] then None
    else if rows[|rows| - 1].name == name then Some(|rows| - 1)
    else LastNamed(rows[..|rows| - 1], name)
  }

  predicate SameServer(row: Row, u: Upstream) {
    row.Server() == u.Server()
  }

  /** The row whose health an upstream of the new configuration inherits. */
  function Source(rows: seq<Row>, u: Upstream): (r: Option<nat>)
    ensures r.Some? ==> r.value < |rows| && SameServer(rows[r.value], u)
  {
    LastNamedInRange(rows, u.name);
    match LastNamed(rows, u.name)
    case None => None
    case Some(i) => if SameServer(rows[i], u) then Some(i) else None
  }

  function Inherited(rows: seq<Row>, u: Upstream): Snapshot {
    match Source(rows, u) case None => FRESH case Some(i) => rows[i].health
  }

  /** What the loop over the entries makes of one that had health `h`. */
  function Updated(rows: seq<Row>, u: Upstream, h: Snapshot): Snapshot {
    match Source(rows, u) case None => h case Some(i) => rows[i].health
  }

  lemma {:induction false} LastNamedInRange(rows: seq<Row>, name: string)
    ensures match LastNamed(rows, name)
            case None => forall i | 0 <= i < |rows| :: rows[i].name != name
            case Some(i) => i < |rows| && rows[i].name == name
  {
    if rows != [] {
      LastNamedInRange(rows[..|rows| - 1], name);
    }
  }

  ghost predicate DistinctNames(rows: seq<Row>) {
    forall i, j | 0 <= i < j < |rows| :: rows[i].name != rows[j].name
  }

  /** Carry-over, exactly: with distinct row names, an upstream inherits from a
      row if and only if name, endpoint and protocol all agree with it; with no
      such row it starts fresh. */
  lemma InheritsExactlyFromSameServer(rows: seq<Row>, u: Upstream)
    requires DistinctNames(rows)
    ensures forall i | 0 <= i < |rows| :: Source(rows, u) == Some(i) <==> SameServer(rows[i], u)
    ensures (forall i | 0 <= i < |rows| :: !SameServer(rows[i], u)) ==> Inherited(rows, u) == FRESH
  {
    LastNamedInRange(rows, u.name);
  }

  // ----- The manager

  datatype Entry = Entry(config: Upstream, health: Snapshot, attempts: nat)

  function NewEntries(us: seq<Upstream>): seq<Entry> {
    seq(|us|, i requires 0 <= i < |us| => Entry(us[i], FRESH, 0))
  }

  function ConfigsOf(es: seq<Entry>): seq<Upstream> {
    seq(|es|, i requires 0 <= i < |es| => es[i].config)
  }

  function HealthsOf(es: seq<Entry>): seq<Snapshot> {
    seq(|es|, i requires 0 <= i < |es| => es[i].health)
  }

  /** The in-service readings of entries. */
  function FlagsOf(es: seq<Entry>): seq<bool> {
    InService(HealthsOf(es))
  }

  ghost function ActiveName(es: seq<Entry>): string {
    if es == [] then ""
    else
      ActiveMeaning(FlagsOf(es));
      es[Select(FlagsOf(es)).picks[0]].config.name
  }

  ghost function PickAll(us: seq<Upstream>, picks: seq<nat>): seq<Upstream>
    requires InRange(picks, |us|)
  {
    seq(|picks|, k requires 0 <= k < |picks| => us[picks[k]])
  }

  lemma PickStep(us: seq<Upstream>, flags: seq<bool>, i: nat)
    requires i < |flags| <= |us| && InRange(Positions(flags[..i]), i)
    ensures InRange(Positions(flags[..i + 1]), i + 1)
    ensures PickAll(us, Positions(flags[..i + 1]))
            == PickAll(us, Positions(flags[..i])) + if flags[i] then [us[i]] else []
  {
    assert flags[..i + 1][..i] == flags[..i];
  }

  lemma PickEveryone(us: seq<Upstream>)
    ensures InRange(Everyone(|us|), |us|) && PickAll(us, Everyone(|us|)) == us
  {
  }

  /** A selection in terms of the upstreams themselves. */
  ghost function Chosen(es: seq<Entry>): seq<Upstream> {
    SelectMeaning(FlagsOf(es));
    assert forall k | 0 <= k < |Select(FlagsOf(es)).picks| :: Select(FlagsOf(es)).picks[k] in Select(FlagsOf(es)).picks;
    PickAll(ConfigsOf(es), Select(FlagsOf(es)).picks)
  }

  ghost predicate Indexed(es: seq<Entry>, byName: map<string, nat>) {
    && (forall n <- byName :: byName[n] < |es| && es[byName[n]].config.name == n)
    && (forall i | 0 <= i < |es| :: es[i].config.name in byName)
  }

  ghost predicate Distinct(us: seq<Upstream>) {
    forall i, j | 0 <= i < j < |us| :: us[i].name != us[j].name
  }

  /** An upstream with its place in the list given. */
  datatype Listed = Listed(up: Upstream, at: nat)

  function Listing(us: seq<Upstream>): seq<Listed> {
    seq(|us|, i requires 0 <= i < |us| => Listed(us[i], i))
  }

  predicate ListedLess(a: Listed, b: Listed) {
    PriorityLess(a.up, b.up)
  }

  /** Where the stable sort by priority puts each place of the list. */
  function SortedListing(us: seq<Upstream>): seq<Listed> {
    SortStable(Listing(us), ListedLess)
  }

  function Ups(ls: seq<Listed>): seq<Upstream> {
    seq(|ls|, i requires 0 <= i < |ls| => ls[i].up)
  }

  lemma {:induction false} InsertUps(ls: seq<Listed>, x: Listed)
    ensures Ups(Insert(ls, x, ListedLess)) == Insert(Ups(ls), x.up, PriorityLess)
  {
    if ls != [] && ListedLess(x, ls[|ls| - 1]) {
      InsertUps(ls[..|ls| - 1], x);
      assert Ups(ls)[..|ls| - 1] == Ups(ls[..|ls| - 1]);
    }
  }

  lemma {:induction false} SortUps(ls: seq<Listed>)
    ensures Ups(SortStable(ls, ListedLess)) == SortStable(Ups(ls), PriorityLess)
  {
    if ls != [] {
      SortUps(ls[..|ls| - 1]);
      InsertUps(SortStable(ls[..|ls| - 1], ListedLess), ls[|ls| - 1]);
      assert Ups(ls)[..|ls| - 1] == Ups(ls[..|ls| - 1]);
    }
  }

  /** The last place of the list with a name. */
  function LastListed(us: seq<Upstream>, name: string): Option<nat> {
    if us == [] then None
    else if us[|us| - 1].name == name then Some(|us| - 1)
    else LastListed(us[..|us| - 1], name)
  }

  lemma {:induction false} LastListedInRange(us: seq<Upstream>, name: string)
    ensures match LastListed(us, name)
            case None => forall i | 0 <= i < |us| :: us[i].name != name
            case Some(i) => i < |us| && us[i].name == name
  {
    if us != [] {
      LastListedInRange(us[..|us| - 1], name);
    }
  }

  /** Each name leads to where the last upstream listed with it was sorted to. */
  ghost predicate LeadsToLast(us: seq<Upstream>, sorted: seq<Listed>, byName: map<string, nat>) {
    forall name ::
      match LastListed(us, name)
      case None => name !in byName
      case Some(i) => name in byName && byName[name] < |sorted| && sorted[byName[name]].at == i
  }

  lemma SortedPlaces(us: seq<Upstream>, k: nat)
    requires k < |us|
    ensures SortedListing(us)[k].at < |us| && SortedListing(us)[k].up == us[SortedListing(us)[k].at]
    ensures exists j :: 0 <= j < |us| && SortedListing(us)[j] == Listed(us[k], k)
  {
    var listing, sorted := Listing(us), SortedListing(us);
    SortPermutes(listing, ListedLess);
    assert sorted[k] in multiset(sorted) && listing[k] in multiset(listing);
    assert sorted[k] in listing && listing[k] in sorted;
  }

  /** The index made while the entries are appended, in list order; the sort then
      moves the entries and the index follows them. */
  method IndexEntries(us: seq<Upstream>) returns (byName: map<string, nat>)
    ensures LeadsToLast(us, SortedListing(us), byName)
  {
    var sorted := SortedListing(us);
    byName := map[];
    for i := 0 to |us|
      invariant LeadsToLast(us[..i], sorted, byName)
    {
      SortedPlaces(us, i);
      var k :| 0 <= k < |us| && sorted[k] == Listed(us[i], i);
      byName := byName[us[i].name := k];
      assert us[..i + 1][..i] == us[..i];
    }
    assert us[..|us|] == us;
  }

  lemma LastIsIndexed(us: seq<Upstream>, byName: map<string, nat>)
    requires LeadsToLast(us, SortedListing(us), byName)
    ensures Indexed(NewEntries(SortStable(us, PriorityLess)), byName)
  {
    var sorted, es := SortedListing(us), NewEntries(SortStable(us, PriorityLess));
    SortUps(Listing(us));
    assert Ups(Listing(us)) == us;
    assert forall k | 0 <= k < |us| :: es[k].config == Ups(sorted)[k] == sorted[k].up;
    forall n <- byName ensures byName[n] < |es| && es[byName[n]].config.name == n {
      LastListedInRange(us, n);
      assert LastListed(us, n).Some?;
      SortedPlaces(us, byName[n]);
    }
    forall k | 0 <= k < |es| ensures es[k].config.name in byName {
      SortedPlaces(us, k);
      LastListedInRange(us, es[k].config.name);
    }
  }

  /** Carry-over on the configuration itself: an upstream continues the record of an
      entry if and only if name, address, port and protocol are all the same. */
  lemma CarriesOverExactly(es: seq<Entry>, u: Upstream)
    requires Distinct(ConfigsOf(es))
    ensures forall i | 0 <= i < |es| :: Source(RowsOf(es), u) == Some(i) <==>
              var v := es[i].config;
              v.name == u.name && v.address == u.address && v.port == u.port && v.protocol == u.protocol
    ensures Source(RowsOf(es), u).None? ==> Inherited(RowsOf(es), u) == Snapshot(Unknown, 0, 0)
  {
    var rows, us := RowsOf(es), ConfigsOf(es);
    assert forall i | 0 <= i < |rows| :: rows[i].name == us[i].name;
    InheritsExactlyFromSameServer(rows, u);
  }

  /** With distinct names the index finds each entry in its place. */
  lemma IndexedDistinct(es: seq<Entry>, byName: map<string, nat>, i: nat)
    requires Indexed(es, byName) && Distinct(ConfigsOf(es)) && i < |es|
    ensures byName[es[i].config.name] == i
  {
    var us, k := ConfigsOf(es), byName[es[i].config.name];
    assert us[k].name == us[i].name;
  }

  method IndexRows(previous: seq<Row>) returns (rows: map<string, nat>)
    ensures forall n :: LastNamed(previous, n) == if n in rows then Some(rows[n]) else None
  {
    rows := map[];
    for i := 0 to |previous|
      invariant forall n :: LastNamed(previous[..i], n) == if n in rows then Some(rows[n]) else None
    {
      rows := rows[previous[i].name := i];
      assert previous[..i + 1][..i] == previous[..i];
    }
    assert previous[..|previous|] == previous;
  }

  function Refreshed(rows: seq<Row>, e: Entry): Entry {
    e.(health := Updated(rows, e.config, e.health))
  }

  ghost function AllRefreshed(rows: seq<Row>, es: seq<Entry>): seq<Entry> {
    seq(|es|, i requires 0 <= i < |es| => Refreshed(rows, es[i]))
  }

  /** One round of the loop over the entries, lines 94-99. */
  method InheritOne(previous: seq<Row>, rows: map<string, nat>, e: Entry) returns (r: Entry)
    requires LastNamed(previous, e.config.name) == if e.config.name in rows then Some(rows[e.config.name]) else None
    ensures r == Refreshed(previous, e)
  {
    LastNamedInRange(previous, e.config.name);
    if e.config.name !in rows || !SameServer(previous[rows[e.config.name]], e.config) {
      return e;
    }
    return e.(health := previous[rows[e.config.name]].health);
  }

  lemma FreshRefreshed(rows: seq<Row>, us: seq<Upstream>)
    ensures var es := AllRefreshed(rows, NewEntries(us));
            && ConfigsOf(es) == us
            && forall i | 0 <= i < |es| :: es[i].health == Inherited(rows, es[i].config) && es[i].attempts == 0
  {
  }

  class Manager {
    const failThreshold: int
    const recoverThreshold: int
    const logging: bool
    var entries: seq<Entry>
    var byName: map<string, nat>
    var lastActive: string
    var emergencyActive: bool
    var lines: seq<Line>
    var modeChanges: seq<bool>

    ghost predicate Valid()
      reads this
    {
      Indexed(entries, byName) && forall i | 0 <= i < |entries| :: entries[i].attempts <= SLOTS
    }

    /** The cached active upstream is the active upstream. */
    ghost predicate Agreed()
      reads this
    {
      lastActive == ActiveName(entries)
    }

    constructor (upstreams: seq<Upstream>, failThreshold: int, recoverThreshold: int, logging: bool)
      ensures Valid() && Agreed()
      ensures this.failThreshold == failThreshold && this.recoverThreshold == recoverThreshold
              && this.logging == logging
      ensures entries == NewEntries(SortStable(upstreams, PriorityLess))
      ensures LeadsToLast(upstreams, SortedListing(upstreams), byName)
      ensures lines == [] && !emergencyActive && modeChanges == []
    {
      this.failThreshold, this.recoverThreshold, this.logging := failThreshold, recoverThreshold, logging;
      lines, emergencyActive, modeChanges := [], false, [];
      var es := NewEntries(SortStable(upstreams, PriorityLess));
      var index := IndexEntries(upstreams);
      LastIsIndexed(upstreams, index);
      entries, byName := es, index;
      lastActive := if |es| > 0 then es[0].config.name else "";
      if es != [] {
        ActiveMeaning(FlagsOf(es));
        assert FlagsOf(es)[0];
      }
    }

    /** Lines 89-101 of the source: the second half of NewManagerFromSnapshots. */
    method Inherit(previous: seq<Row>)
      requires Valid()
      modifies this`entries, this`lastActive
      ensures Valid() && Agreed()
      ensures entries == AllRefreshed(previous, old(entries))
    {
      var rows := IndexRows(previous);
      var was, es := entries, entries;
      for i := 0 to |was|
        invariant entries == was && |es| == |was|
        invariant forall k | 0 <= k < |es| :: es[k] == if k < i then Refreshed(previous, was[k]) else was[k]
      {
        var e := InheritOne(previous, rows, es[i]);
        es := es[i := e];
      }
      entries := es;
      lastActive := Active();
    }

    static method FromSnapshots(upstreams: seq<Upstream>, failThreshold: int, recoverThreshold: int, logging: bool,
                                previous: seq<Row>)
      returns (m: Manager)
      ensures fresh(m) && m.Valid() && m.Agreed() && m.lines == []
      ensures m.failThreshold == failThreshold && m.recoverThreshold == recoverThreshold && m.logging == logging
      ensures ConfigsOf(m.entries) == SortStable(upstreams, PriorityLess)
      ensures LeadsToLast(upstreams, SortedListing(upstreams), m.byName)
      ensures forall i | 0 <= i < |m.entries| ::
                m.entries[i].health == Inherited(previous, m.entries[i].config) && m.entries[i].attempts == 0
    {
      m := new Manager(upstreams, failThreshold, recoverThreshold, logging);
      m.Inherit(previous);
      FreshRefreshed(previous, SortStable(upstreams, PriorityLess));
    }

    /** The first loop. */
    method InServiceOnly() returns (result: seq<Upstream>)
      ensures InRange(Positions(FlagsOf(entries)), |entries|)
      ensures result == PickAll(ConfigsOf(entries), Positions(FlagsOf(entries)))
    {
      ghost var flags, us := FlagsOf(entries), ConfigsOf(entries);
      result := [];
      for i := 0 to |entries|
        invariant InRange(Positions(flags[..i]), i) && result == PickAll(us, Positions(flags[..i]))
      {
        PickStep(us, flags, i);
        if !entries[i].health.state.Out() {
          result := result + [entries[i].config];
        }
      }
      assert flags[..|entries|] == flags;
    }

    /** The second loop. */
    method Everybody() returns (result: seq<Upstream>)
      ensures result == ConfigsOf(entries)
    {
      result := [];
      for i := 0 to |entries|
        invariant result == ConfigsOf(entries)[..i]
      {
        result := result + [entries[i].config];
      }
    }

    method Candidates() returns (result: seq<Upstream>, emergency: bool)
      ensures result == Chosen(entries) && emergency == Select(FlagsOf(entries)).emergency
    {
      result := InServiceOnly();
      if |result| > 0 {
        return result, false;
      }
      result := Everybody();
      PickEveryone(ConfigsOf(entries));
      return result, true;
    }

    method Active() returns (name: string)
      ensures name == ActiveName(entries)
      ensures if entries == [] then name == ""
              else exists a :: 0 <= a < |entries| && IsActive(HealthsOf(entries), a) && name == entries[a].config.name
    {
      if entries != [] {
        FirstPickIsActive(HealthsOf(entries));
      }
      var candidates, _ := Candidates();
      SelectMeaning(FlagsOf(entries));
      return if |candidates| == 0 then "" else candidates[0].name;
    }

    method LogActiveChange()
      requires logging
      modifies this`lastActive, this`lines
      ensures var a := ActiveName(entries);
              if a == "" || a == old(lastActive) then lastActive == old(lastActive) && lines == old(lines)
              else lastActive == a && lines == old(lines) + [Line(old(lastActive), a)]
    {
      var active := Active();
      if active == "" || active == lastActive {
        return;
      }
      var previous := lastActive;
      lastActive := active;
      lines := lines + [Line(previous, active)];
    }

    /** What both reports promise about the log: the cache stays right when no
        name is empty, and a line is written exactly when it changes. */
    twostate predicate LogKept()
      reads this
    {
      && (logging && old(Agreed()) && (forall i | 0 <= i < |entries| :: entries[i].config.name != "") ==> Agreed())
      && lines == if lastActive == old(lastActive) then old(lines) else old(lines) + [Line(old(lastActive), lastActive)]
    }

    method LogTransition(before: State, after: State)
      modifies this`lastActive, this`lines
      ensures var a := ActiveName(entries);
              if !logging || before == after || a == "" || a == old(lastActive)
              then lastActive == old(lastActive) && lines == old(lines)
              else lastActive == a && lines == old(lines) + [Line(old(lastActive), a)]
    {
      if !logging || before == after {
        return;
      }
      LogActiveChange();
    }

    /** The end of both reports: the new record is stored and its change logged. */
    method StoreHealth(i: nat, health: Snapshot)
      requires Valid() && i < |entries|
      modifies this`entries, this`lastActive, this`lines
      ensures Valid() && LogKept()
      ensures entries == old(entries)[i := old(entries)[i].(health := health)]
    {
      ghost var was := entries;
      var before := entries[i].health.state;
      entries := entries[i := entries[i].(health := health)];
      SameStateSameActive(was, entries, i);
      LogTransition(before, health.state);
      NamedActive(entries);
    }

    method RecordFailure(name: string)
      requires Valid()
      modifies this`entries, this`lastActive, this`lines
      ensures Valid() && LogKept()
      ensures entries == if name !in byName then old(entries)
                         else ReportedAt(old(entries), byName[name], Failure, failThreshold, recoverThreshold)
    {
      if name !in byName {
        return;
      }
      var i := byName[name];
      var state, failures := entries[i].health.state, entries[i].health.failures + 1;
      var next: State;
      if state.Down? || state.Recovering? {
        next := Down;
      } else if failures >= failThreshold {
        next := Down;
      } else {
        next := Suspect;
      }
      StoreHealth(i, Snapshot(next, failures, 0));
    }

    method RecordSuccess(name: string, probe: bool)
      requires Valid()
      modifies this`entries, this`lastActive, this`lines
      ensures Valid() && LogKept()
      ensures entries == if name !in byName then old(entries)
                         else ReportedAt(old(entries), byName[name], Success(probe), failThreshold, recoverThreshold)
    {
      if name !in byName {
        return;
      }
      var i := byName[name];
      var state, successes := entries[i].health.state, entries[i].health.successes + 1;
      var next: State;
      match state {
        case Down | Recovering =>
          if !probe {
            return;
          }
          if successes >= recoverThreshold {
            next := Healthy;
          } else {
            next := Recovering;
          }
        case _ =>
          next := Healthy;
      }
      StoreHealth(i, Snapshot(next, 0, successes));
    }

    /** The lines about the emergency path record every change of mode. */
    method RecordSelectionMode(emergency: bool)
      modifies this`emergencyActive, this`modeChanges
      ensures emergencyActive == if logging then emergency else old(emergencyActive)
      ensures modeChanges == if emergencyActive == old(emergencyActive) then old(modeChanges)
                             else old(modeChanges) + [emergencyActive]
    {
      if !logging || emergency == emergencyActive {
        return;
      }
      emergencyActive := emergency;
      modeChanges := modeChanges + [emergency];
    }

    method BeginAttempt(name: string) returns (ok: bool)
      requires Valid()
      modifies this`entries
      ensures Valid()
      ensures ok <==> name in byName && old(entries)[byName[name]].attempts < 16
      ensures entries == if !ok then old(entries)
                         else WithAttempts(old(entries), byName[name], old(entries)[byName[name]].attempts + 1)
    {
      if name !in byName {
        return false;
      }
      var i := byName[name];
      if entries[i].attempts < SLOTS {
        entries := entries[i := entries[i].(attempts := entries[i].attempts + 1)];
        return true;
      }
      return false;
    }

    method Release(name: string)
      requires Valid() && name in byName && entries[byName[name]].attempts > 0
      modifies this`entries
      ensures Valid()
      ensures entries == WithAttempts(old(entries), byName[name], old(entries)[byName[name]].attempts - 1)
    {
      var i := byName[name];
      entries := entries[i := entries[i].(attempts := entries[i].attempts - 1)];
    }

    method Snapshots() returns (rows: seq<Row>)
      ensures rows == RowsOf(entries) && |rows| == |entries|
      ensures forall i | 0 <= i < |rows| ::
                var u := entries[i].config;
                rows[i] == Row(u.name, u.priority, u.protocol, (u.address, u.port), entries[i].health)
    {
      rows := [];
      for i := 0 to |entries|
        invariant rows == RowsOf(entries)[..i]
      {
        rows := rows + [RowOf(entries[i])];
      }
    }
  }

  function WithAttempts(es: seq<Entry>, i: nat, attempts: nat): seq<Entry>
    requires i < |es|
  {
    es[i := es[i].(attempts := attempts)]
  }

  function ReportedAt(es: seq<Entry>, i: nat, o: Outcome, failThreshold: int, recoverThreshold: int): seq<Entry>
    requires i < |es|
  {
    es[i := Reported(es[i], o, failThreshold, recoverThreshold)]
  }

  function Reported(e: Entry, o: Outcome, failThreshold: int, recoverThreshold: int): Entry {
    e.(health := Record(e.health, o, failThreshold, recoverThreshold))
  }

  lemma SameStateSameActive(was: seq<Entry>, now: seq<Entry>, i: nat)
    requires i < |was| == |now| && now == was[i := now[i]] && now[i].config == was[i].config
    ensures ConfigsOf(was) == ConfigsOf(now)
    ensures now[i].health.state == was[i].health.state ==>
              FlagsOf(was) == FlagsOf(now) && ActiveName(was) == ActiveName(now)
  {
    assert forall k | 0 <= k < |was| :: was[k].config == now[k].config;
    ActiveMeaning(FlagsOf(was));
    if now[i].health.state == was[i].health.state {
      assert FlagsOf(was) == FlagsOf(now);
    }
  }

  lemma NamedActive(es: seq<Entry>)
    ensures es != [] && (forall i | 0 <= i < |es| :: es[i].config.name != "") ==> ActiveName(es) != ""
  {
    if es != [] {
      ActiveMeaning(FlagsOf(es));
    }
  }

  function RowOf(e: Entry): Row {
    RowFor(e.config, e.health)
  }

  function RowsOf(es: seq<Entry>): seq<Row> {
    seq(|es|, i requires 0 <= i < |es| => RowOf(es[i]))
  }

  /** A reload that keeps the upstreams keeps every record, hence the selection. */
  lemma UnchangedUpstreamsKeepSelection(before: seq<Entry>, after: seq<Entry>)
    requires Distinct(ConfigsOf(before)) && ConfigsOf(after) == ConfigsOf(before)
    requires forall i | 0 <= i < |after| :: after[i].health == Inherited(RowsOf(before), after[i].config)
    ensures forall i | 0 <= i < |after| :: after[i].health == before[i].health
    ensures Select(FlagsOf(after)) == Select(FlagsOf(before)) && Chosen(after) == Chosen(before)
  {
    var rows, us := RowsOf(before), ConfigsOf(before);
    assert |after| == |us|;
    assert forall i | 0 <= i < |rows| :: rows[i].name == us[i].name;
    forall i | 0 <= i < |after| ensures after[i].health == before[i].health {
      assert ConfigsOf(after)[i] == us[i];
      InheritsExactlyFromSameServer(rows, after[i].config);
      assert SameServer(rows[i], after[i].config);
    }
    assert FlagsOf(after) == FlagsOf(before);
  }
}
