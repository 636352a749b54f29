/** A configuration written out as text reads back as itself, whatever the order
    of its upstream sections and whatever disabled ones stand among them. */
module ConfigWriting {
  import opened Wrappers
  import opened Config
  import Sorting
  import Uci

  // ----- What the library functions must be for the text to mean the value

  ghost predicate Int64(n: int) {
    -0x8000_0000_0000_0000 <= n < 0x8000_0000_0000_0000
  }

  ghost predicate Faithful(lib: Library, itoa: int -> string) {
    && (forall n | Int64(n) :: lib.atoi(itoa(n)) == Some(n) && PrintableText(itoa(n)))
    && (forall s | lib.isIP(s) :: PrintableText(s))
    && lib.toLower("udp") == "udp" && lib.toLower("tcp") == "tcp"
    && lib.toUpper("A") == "A" && lib.toUpper("AAAA") == "AAAA"
  }

  // ----- Values that have a text

  ghost predicate WritableProbe(lib: Library, p: Probe) {
    && p.name != "" && p.name[|p.name| - 1] == '.' && ':' !in p.name && '\'' !in p.name
    && Uci.TrimSpace(p.name) == p.name && lib.toLower(p.name) == p.name
    && p.qtype in {1, 28}
  }

  ghost predicate WritableUpstream(u: Upstream) {
    && PrintableText(u.name) && PrintableText(u.address) && u.protocol in {"udp", "tcp"}
    && Int64(u.priority) && Int64(u.port)
  }

  ghost predicate Whole(d: int, unit: int)
    requires unit > 0
  {
    Int64(d) && d % unit == 0
  }

  /** Everything but the upstream list. */
  ghost predicate WritableSettings(lib: Library, c: Config) {
    && PrintableText(c.listenAddr) && PrintableText(c.statusSocket)
    && Int64(c.listenPort) && Int64(c.failThreshold) && Int64(c.recoverThreshold) && Int64(c.maxConcurrent)
    && Whole(c.attemptTimeout, 1_000_000) && Whole(c.requestTimeout, 1_000_000)
    && Whole(c.healthInterval, 1_000_000_000)
    && forall i | 0 <= i < |c.probes| :: WritableProbe(lib, c.probes[i])
  }

  // ----- Writing

  function WriteBool(b: bool): string {
    if b then "1" else "0"
  }

  function WriteProbe(p: Probe): string {
    p.name + ":" + if p.qtype == 1 then "A" else "AAAA"
  }

  const MAIN_KEYS := ["enabled", "listen_addr", "listen_port", "attempt_timeout_ms", "request_timeout_ms",
                      "health_interval_s", "fail_threshold", "recover_threshold", "max_concurrent", "status_socket"]
  const UPSTREAM_KEYS := ["enabled", "priority", "protocol", "address", "port"]

  function MainValues(itoa: int -> string, c: Config): seq<string> {
    [WriteBool(c.enabled), c.listenAddr, itoa(c.listenPort),
     itoa(c.attemptTimeout / 1_000_000), itoa(c.requestTimeout / 1_000_000), itoa(c.healthInterval / 1_000_000_000),
     itoa(c.failThreshold), itoa(c.recoverThreshold), itoa(c.maxConcurrent), c.statusSocket]
  }

  function UpstreamValues(itoa: int -> string, u: Upstream): seq<string> {
    [WriteBool(u.enabled), itoa(u.priority), u.protocol, u.address, itoa(u.port)]
  }

  function Sets(keys: seq<string>, values: seq<string>): seq<Directive>
    requires |keys| == |values|
  {
    seq(|keys|, i requires 0 <= i < |keys| => Set(keys[i], values[i]))
  }

  function Adds(key: string, values: seq<string>): seq<Directive> {
    seq(|values|, i requires 0 <= i < |values| => Add(key, values[i]))
  }

  function WriteProbes(ps: seq<Probe>): seq<string> {
    seq(|ps|, i requires 0 <= i < |ps| => WriteProbe(ps[i]))
  }

  function MainBlock(itoa: int -> string, c: Config): Block {
    Block("main", "main", Sets(MAIN_KEYS, MainValues(itoa, c)) + Adds("probe", WriteProbes(c.probes)))
  }

  function UpstreamBlock(itoa: int -> string, u: Upstream): Block {
    Block("upstream", u.name, Sets(UPSTREAM_KEYS, UpstreamValues(itoa, u)))
  }

  /** The settings of `c`, then the listed upstreams. */
  function Document(itoa: int -> string, c: Config, listed: seq<Upstream>): seq<Block> {
    [MainBlock(itoa, c)] + seq(|listed|, i requires 0 <= i < |listed| => UpstreamBlock(itoa, listed[i]))
  }

  function Enabled(listed: seq<Upstream>): seq<Upstream> {
    if listed == [] then []
    else
      var last := listed[|listed| - 1];
      Enabled(listed[..|listed| - 1]) + if last.enabled then [last] else []
  }

  // ----- Looking up what was written

  ghost predicate DistinctKeys(keys: seq<string>) {
    forall i, j | 0 <= i < j < |keys| :: keys[i] != keys[j]
  }

  lemma MainKeysDistinct()
    ensures DistinctKeys(MAIN_KEYS)
  {
    forall i, j | 0 <= i < j < |MAIN_KEYS| ensures MAIN_KEYS[i] != MAIN_KEYS[j] {
      var a, b := MAIN_KEYS[i], MAIN_KEYS[j];
      assert |a| != |b| || a[7] != b[7] || a[0] != b[0];
    }
  }

  lemma UpstreamKeysDistinct()
    ensures DistinctKeys(UPSTREAM_KEYS)
  {
    forall i, j | 0 <= i < j < |UPSTREAM_KEYS| ensures UPSTREAM_KEYS[i] != UPSTREAM_KEYS[j] {
      var a, b := UPSTREAM_KEYS[i], UPSTREAM_KEYS[j];
      assert |a| != |b| || a[2] != b[2];
    }
  }

  lemma {:induction false} LookUp(keys: seq<string>, values: seq<string>, adds: seq<Directive>, i: nat)
    requires |keys| == |values| && DistinctKeys(keys) && i < |keys|
    requires forall d <- adds :: d.Add?
    ensures LastSet(Sets(keys, values) + adds, keys[i]) == Some(values[i])
    decreases |keys| + |adds|
  {
    var body := Sets(keys, values) + adds;
    var n := |body| - 1;
    if adds != [] {
      assert body[..n] == Sets(keys, values) + adds[..|adds| - 1];
      assert body[n] == adds[|adds| - 1] && adds[|adds| - 1] in adds;
      LookUp(keys, values, adds[..|adds| - 1], i);
    } else if i < n {
      assert body[..n] == Sets(keys[..n], values[..n]) + [];
      LookUp(keys[..n], values[..n], [], i);
    }
  }

  lemma {:induction false} LookUpAdded(sets: seq<Directive>, key: string, values: seq<string>)
    requires forall d <- sets :: d.Set?
    ensures AllAdded(sets + Adds(key, values), key) == values
    decreases |sets| + |values|
  {
    var body := sets + Adds(key, values);
    var n := |body| - 1;
    if values != [] {
      assert body[..n] == sets + Adds(key, values[..|values| - 1]);
      assert body[n] == Add(key, values[|values| - 1]);
      LookUpAdded(sets, key, values[..|values| - 1]);
    } else if sets != [] {
      assert body[..n] == sets[..n] + Adds(key, []);
      assert body[n] == sets[n] && sets[n] in sets;
      LookUpAdded(sets[..n], key, []);
    }
  }

  // ----- One section

  lemma WholeReadsBack(lib: Library, itoa: int -> string, d: int, unit: int)
    requires Faithful(lib, itoa) && unit > 0 && Whole(d, unit)
    ensures Int64(d / unit) && lib.atoi(itoa(d / unit)) == Some(d / unit) && Wrap64(d / unit * unit) == d
  {
    var q := d / unit;
    assert q * unit == d;
    ProductGrows(q, unit);
  }

  lemma ProductGrows(q: int, unit: int)
    requires unit > 0
    ensures q >= 0 ==> q * unit >= q
    ensures q < 0 ==> q * unit <= q
  {
    if q >= 0 {
      assert q * (unit - 1) >= 0;
    } else {
      assert -q * (unit - 1) >= 0;
    }
  }

  lemma ProbeReadsBack(lib: Library, itoa: int -> string, p: Probe)
    requires Faithful(lib, itoa) && WritableProbe(lib, p)
    ensures ParseProbe(lib, WriteProbe(p)) == Some(p)
  {
    var kind := if p.qtype == 1 then "A" else "AAAA";
    var raw := p.name + ":" + kind;
    ColonAfter(p.name, kind);
    assert raw[..|p.name|] == p.name && raw[|p.name| + 1..] == kind;
    TrimKind();
  }

  lemma {:induction false} ParseEach(raw: seq<string>, parse: string -> Option<Probe>, ps: seq<Probe>)
    requires |raw| == |ps| && forall i | 0 <= i < |raw| :: parse(raw[i]) == Some(ps[i])
    ensures ParseAll(raw, parse) == Some(ps)
  {
    if raw != [] {
      ParseEach(raw[..|raw| - 1], parse, ps[..|ps| - 1]);
      assert ps == ps[..|ps| - 1] + [ps[|ps| - 1]];
    }
  }

  lemma ProbesReadBack(lib: Library, itoa: int -> string, ps: seq<Probe>)
    requires Faithful(lib, itoa) && forall i | 0 <= i < |ps| :: WritableProbe(lib, ps[i])
    ensures ParseProbes(lib, WriteProbes(ps)) == Some(ps)
  {
    forall i | 0 <= i < |ps| ensures ParseProbe(lib, WriteProbe(ps[i])) == Some(ps[i]) {
      ProbeReadsBack(lib, itoa, ps[i]);
    }
    ParseEach(WriteProbes(ps), s => ParseProbe(lib, s), ps);
  }

  /** The option's value in a section that says what the block says. */
  lemma OptionOf(b: Block, s: Section, keys: seq<string>, values: seq<string>, adds: seq<Directive>, i: nat)
    requires Denotes(b, s) && |keys| == |values| && DistinctKeys(keys) && i < |keys|
    requires b.body == Sets(keys, values) + adds && forall d <- adds :: d.Add?
    ensures keys[i] in s.options && s.options[keys[i]] == values[i]
  {
    LookUp(keys, values, adds, i);
    assert LastSet(b.body, keys[i]) == if keys[i] in s.options then Some(s.options[keys[i]]) else None;
  }

  /** The section holds every listed option. */
  ghost predicate Holds(s: Section, keys: seq<string>, values: seq<string>)
    requires |keys| == |values|
  {
    forall i | 0 <= i < |keys| :: keys[i] in s.options && s.options[keys[i]] == values[i]
  }

  lemma MainHolds(itoa: int -> string, c: Config, s: Section)
    requires Denotes(MainBlock(itoa, c), s)
    ensures Holds(s, MAIN_KEYS, MainValues(itoa, c))
    ensures ListOf(s, "probe") == WriteProbes(c.probes)
  {
    var b, values := MainBlock(itoa, c), MainValues(itoa, c);
    var adds := Adds("probe", WriteProbes(c.probes));
    MainKeysDistinct();
    forall i | 0 <= i < |MAIN_KEYS| ensures MAIN_KEYS[i] in s.options && s.options[MAIN_KEYS[i]] == values[i] {
      OptionOf(b, s, MAIN_KEYS, values, adds, i);
    }
    LookUpAdded(Sets(MAIN_KEYS, values), "probe", WriteProbes(c.probes));
    assert AllAdded(b.body, "probe") == ListOf(s, "probe");
  }

  lemma UpstreamHolds(itoa: int -> string, u: Upstream, s: Section)
    requires Denotes(UpstreamBlock(itoa, u), s)
    ensures Holds(s, UPSTREAM_KEYS, UpstreamValues(itoa, u))
  {
    var b, values := UpstreamBlock(itoa, u), UpstreamValues(itoa, u);
    UpstreamKeysDistinct();
    assert b.body == Sets(UPSTREAM_KEYS, values) + [];
    forall i | 0 <= i < |UPSTREAM_KEYS|
      ensures UPSTREAM_KEYS[i] in s.options && s.options[UPSTREAM_KEYS[i]] == values[i]
    {
      OptionOf(b, s, UPSTREAM_KEYS, values, [], i);
    }
  }

  lemma BoolReadsBack(s: Section, key: string, b: bool, fallback: bool)
    requires key in s.options && s.options[key] == WriteBool(b)
    ensures BoolOption(s, key, fallback) == Some(b)
  {
    assert "0" !in ["1", "true", "yes", "on"];
  }

  lemma IntReadsBack(lib: Library, itoa: int -> string, s: Section, key: string, n: int, fallback: int)
    requires Faithful(lib, itoa) && Int64(n) && key in s.options && s.options[key] == itoa(n)
    ensures IntOption(lib, s, key, fallback) == Some(n)
  {
  }

  lemma UpstreamReadsBack(lib: Library, itoa: int -> string, u: Upstream, s: Section)
    requires Faithful(lib, itoa) && WritableUpstream(u) && Denotes(UpstreamBlock(itoa, u), s)
    ensures ParseUpstream(lib, s) == Some(u)
  {
    UpstreamHolds(itoa, u, s);
    var values := UpstreamValues(itoa, u);
    assert UPSTREAM_KEYS[0] == "enabled" && values[0] == WriteBool(u.enabled);
    assert UPSTREAM_KEYS[1] == "priority" && values[1] == itoa(u.priority);
    assert UPSTREAM_KEYS[2] == "protocol" && values[2] == u.protocol;
    assert UPSTREAM_KEYS[3] == "address" && values[3] == u.address;
    assert UPSTREAM_KEYS[4] == "port" && values[4] == itoa(u.port);
    BoolReadsBack(s, "enabled", u.enabled, true);
    IntReadsBack(lib, itoa, s, "priority", u.priority, 0);
    IntReadsBack(lib, itoa, s, "port", u.port, 53);
  }

  /** The section's options are those of `c`, each under its own key. */
  ghost predicate SaysMain(itoa: int -> string, c: Config, s: Section) {
    var o := s.options;
    && {"enabled", "listen_addr", "listen_port", "attempt_timeout_ms", "request_timeout_ms", "health_interval_s",
        "fail_threshold", "recover_threshold", "max_concurrent", "status_socket"} <= o.Keys
    && o["enabled"] == WriteBool(c.enabled)
    && o["listen_addr"] == c.listenAddr && o["listen_port"] == itoa(c.listenPort)
    && o["attempt_timeout_ms"] == itoa(c.attemptTimeout / 1_000_000)
    && o["request_timeout_ms"] == itoa(c.requestTimeout / 1_000_000)
    && o["health_interval_s"] == itoa(c.healthInterval / 1_000_000_000)
    && o["fail_threshold"] == itoa(c.failThreshold) && o["recover_threshold"] == itoa(c.recoverThreshold)
    && o["max_concurrent"] == itoa(c.maxConcurrent) && o["status_socket"] == c.statusSocket
  }

  lemma HoldsSaysMain(itoa: int -> string, c: Config, s: Section)
    requires Holds(s, MAIN_KEYS, MainValues(itoa, c))
    ensures SaysMain(itoa, c, s)
  {
    var k, v := MAIN_KEYS, MainValues(itoa, c);
    assert k[0] in s.options && k[1] in s.options && k[2] in s.options && k[3] in s.options && k[4] in s.options;
    assert k[5] in s.options && k[6] in s.options && k[7] in s.options && k[8] in s.options && k[9] in s.options;
  }

  lemma {:induction false} MainReadsBack(lib: Library, itoa: int -> string, c: Config, s: Section)
    requires Faithful(lib, itoa) && WritableSettings(lib, c) && Denotes(MainBlock(itoa, c), s)
    ensures ReadableMain(lib, Defaults(), s) && ApplyMain(lib, Defaults(), s) == c.(upstreams := [])
  {
    MainHolds(itoa, c, s);
    HoldsSaysMain(itoa, c, s);
    var d := Defaults();
    BoolReadsBack(s, "enabled", c.enabled, d.enabled);
    IntReadsBack(lib, itoa, s, "listen_port", c.listenPort, d.listenPort);
    WholeReadsBack(lib, itoa, c.attemptTimeout, 1_000_000);
    WholeReadsBack(lib, itoa, c.requestTimeout, 1_000_000);
    WholeReadsBack(lib, itoa, c.healthInterval, 1_000_000_000);
    IntReadsBack(lib, itoa, s, "fail_threshold", c.failThreshold, d.failThreshold);
    IntReadsBack(lib, itoa, s, "recover_threshold", c.recoverThreshold, d.recoverThreshold);
    IntReadsBack(lib, itoa, s, "max_concurrent", c.maxConcurrent, d.maxConcurrent);
    ProbesReadBack(lib, itoa, c.probes);
    assert [] + c.probes == c.probes;
  }

  // ----- The whole document

  ghost predicate AllDenote(doc: seq<Block>, sections: seq<Section>) {
    |doc| == |sections| && forall i | 0 <= i < |doc| :: Denotes(doc[i], sections[i])
  }

  /** One main section, then the listed upstreams. */
  ghost predicate Reads(lib: Library, listed: seq<Upstream>, sections: seq<Section>) {
    && |sections| == |listed| + 1 && sections[0].kind == "main"
    && forall i | 0 < i < |sections| ::
         sections[i].kind == "upstream" && ParseUpstream(lib, sections[i]) == Some(listed[i - 1])
  }

  lemma DocumentReads(lib: Library, itoa: int -> string, c: Config, listed: seq<Upstream>, sections: seq<Section>)
    requires Faithful(lib, itoa) && (forall i | 0 <= i < |listed| :: WritableUpstream(listed[i]))
    requires AllDenote(Document(itoa, c, listed), sections)
    ensures Reads(lib, listed, sections)
  {
    var doc := Document(itoa, c, listed);
    assert Denotes(doc[0], sections[0]);
    forall i | 0 < i < |sections|
      ensures sections[i].kind == "upstream" && ParseUpstream(lib, sections[i]) == Some(listed[i - 1])
    {
      assert Denotes(doc[i], sections[i]) && doc[i] == UpstreamBlock(itoa, listed[i - 1]);
      UpstreamReadsBack(lib, itoa, listed[i - 1], sections[i]);
    }
  }

  lemma ReadsInit(lib: Library, listed: seq<Upstream>, sections: seq<Section>)
    requires Reads(lib, listed, sections) && listed != []
    ensures Reads(lib, listed[..|listed| - 1], sections[..|listed|])
  {
    assert forall i | 0 <= i < |listed| :: sections[..|listed|][i] == sections[i];
  }

  lemma {:induction false} UpstreamsReadBack(lib: Library, listed: seq<Upstream>, sections: seq<Section>)
    requires Reads(lib, listed, sections)
    ensures Mains(sections) == [sections[0]] && EnabledUpstreams(lib, sections) == Enabled(listed)
    decreases |listed|
  {
    var n := |listed|;
    if n == 0 {
      assert sections[..0] == [] && sections == [sections[0]];
    } else {
      ReadsInit(lib, listed, sections);
      UpstreamsReadBack(lib, listed[..n - 1], sections[..n]);
      assert ParseUpstream(lib, sections[n]) == Some(listed[n - 1]);
    }
  }

  lemma ReadsAcceptable(lib: Library, listed: seq<Upstream>, sections: seq<Section>)
    requires Reads(lib, listed, sections)
    ensures forall i | 0 <= i < |sections| :: AcceptableSection(lib, sections[i])
  {
  }

  ghost predicate SameMembers(a: seq<Upstream>, b: seq<Upstream>) {
    forall u :: u in a <==> u in b
  }

  lemma LastIsGreatest(a: seq<Upstream>, b: seq<Upstream>)
    requires IncreasingPriority(a) && IncreasingPriority(b) && SameMembers(a, b) && a != [] && b != []
    ensures a[|a| - 1] == b[|b| - 1]
  {
    var x, y := a[|a| - 1], b[|b| - 1];
    assert x in b && y in a;
  }

  lemma WithoutLast(a: seq<Upstream>, u: Upstream)
    requires IncreasingPriority(a) && a != []
    ensures IncreasingPriority(a[..|a| - 1])
    ensures u in a[..|a| - 1] <==> u in a && u != a[|a| - 1]
  {
    assert a == a[..|a| - 1] + [a[|a| - 1]];
  }

  /** A list in strictly increasing priority is determined by its elements. */
  lemma {:induction false} IncreasingUnique(a: seq<Upstream>, b: seq<Upstream>)
    requires IncreasingPriority(a) && IncreasingPriority(b) && SameMembers(a, b)
    ensures a == b
  {
    assert (a == [] || a[0] in b) && (b == [] || b[0] in a);
    if a != [] {
      LastIsGreatest(a, b);
      var a', b' := a[..|a| - 1], b[..|b| - 1];
      forall u ensures u in a' <==> u in b' {
        WithoutLast(a, u);
        WithoutLast(b, u);
      }
      WithoutLast(a, a[0]);
      WithoutLast(b, b[0]);
      IncreasingUnique(a', b');
      assert a == a' + [a[|a| - 1]] && b == b' + [b[|b| - 1]];
    }
  }

  lemma PermutationsShare(a: seq<Upstream>, b: seq<Upstream>)
    requires multiset(a) == multiset(b)
    ensures SameMembers(a, b)
  {
    forall u ensures u in a <==> u in b {
      assert u in a <==> u in multiset(a);
      assert u in b <==> u in multiset(b);
    }
  }

  /** The reader's sort restores the priority order from any arrangement. */
  lemma SortRestores(listed: seq<Upstream>, us: seq<Upstream>)
    requires IncreasingPriority(us) && multiset(listed) == multiset(us)
    ensures Sorting.SortStable(listed, UpstreamLess) == us
  {
    var sorted := Sorting.SortStable(listed, UpstreamLess);
    Sorting.SortPermutes(listed, UpstreamLess);
    UpstreamLessAsymmetric();
    Sorting.SortOrders(listed, UpstreamLess);
    DistinctPriorities(sorted, us);
    OrderedIncreases(sorted);
    PermutationsShare(sorted, us);
    IncreasingUnique(sorted, us);
  }

  lemma {:induction false} OnceEach(us: seq<Upstream>, u: Upstream)
    requires IncreasingPriority(us)
    ensures multiset(us)[u] <= 1
  {
    if us != [] {
      var n := |us| - 1;
      assert us == us[..n] + [us[n]];
      OnceEach(us[..n], u);
      assert us[n] !in us[..n];
    }
  }

  lemma TwiceAt(s: seq<Upstream>, i: nat, j: nat)
    requires i < j < |s| && s[i] == s[j]
    ensures multiset(s)[s[i]] >= 2
  {
    assert s == s[..j] + s[j..];
    assert s[i] in s[..j] && s[j] in s[j..];
  }

  lemma DistinctPriorities(sorted: seq<Upstream>, us: seq<Upstream>)
    requires IncreasingPriority(us) && multiset(sorted) == multiset(us)
    ensures PrioritiesDiffer(sorted)
  {
    forall i, j | 0 <= i < j < |sorted| ensures sorted[i].priority != sorted[j].priority {
      assert sorted[i] in multiset(us) && sorted[j] in multiset(us);
      var k :| 0 <= k < |us| && us[k] == sorted[i];
      var m :| 0 <= m < |us| && us[m] == sorted[j];
      if k == m {
        TwiceAt(sorted, i, j);
        OnceEach(us, us[k]);
      }
    }
  }

  ghost predicate AllPrintable(texts: seq<string>) {
    forall i | 0 <= i < |texts| :: PrintableText(texts[i])
  }

  lemma SetsPrintable(keys: seq<string>, values: seq<string>)
    requires |keys| == |values| && AllPrintable(keys) && AllPrintable(values)
    ensures forall d <- Sets(keys, values) :: PrintableText(d.key) && PrintableText(d.value)
  {
  }

  lemma MainValuesPrintable(lib: Library, itoa: int -> string, c: Config)
    requires Faithful(lib, itoa) && WritableSettings(lib, c)
    ensures AllPrintable(MainValues(itoa, c))
  {
    WholeReadsBack(lib, itoa, c.attemptTimeout, 1_000_000);
    WholeReadsBack(lib, itoa, c.requestTimeout, 1_000_000);
    WholeReadsBack(lib, itoa, c.healthInterval, 1_000_000_000);
  }

  lemma ProbePrintable(lib: Library, p: Probe)
    requires WritableProbe(lib, p)
    ensures PrintableText(WriteProbe(p))
  {
  }

  lemma MainKeysPrintable()
    ensures AllPrintable(MAIN_KEYS)
  {
  }

  lemma MainPrintable(lib: Library, itoa: int -> string, c: Config)
    requires Faithful(lib, itoa) && WritableSettings(lib, c)
    ensures Printable(MainBlock(itoa, c))
  {
    var b, sets := MainBlock(itoa, c), Sets(MAIN_KEYS, MainValues(itoa, c));
    MainValuesPrintable(lib, itoa, c);
    MainKeysPrintable();
    SetsPrintable(MAIN_KEYS, MainValues(itoa, c));
    forall i | 0 <= i < |b.body| ensures PrintableText(b.body[i].key) && PrintableText(b.body[i].value) {
      if i < |sets| {
        assert b.body[i] == sets[i] && sets[i] in sets;
      } else {
        ProbePrintable(lib, c.probes[i - |sets|]);
      }
    }
  }

  lemma UpstreamPrintable(lib: Library, itoa: int -> string, u: Upstream)
    requires Faithful(lib, itoa) && WritableUpstream(u)
    ensures Printable(UpstreamBlock(itoa, u))
  {
    var sets := Sets(UPSTREAM_KEYS, UpstreamValues(itoa, u));
    SetsPrintable(UPSTREAM_KEYS, UpstreamValues(itoa, u));
    assert forall i | 0 <= i < |sets| :: sets[i] in sets;
  }

  lemma DocumentPrintable(lib: Library, itoa: int -> string, c: Config, listed: seq<Upstream>)
    requires Faithful(lib, itoa) && WritableSettings(lib, c)
    requires forall i | 0 <= i < |listed| :: WritableUpstream(listed[i])
    ensures forall b <- Document(itoa, c, listed) :: Printable(b)
  {
    MainPrintable(lib, itoa, c);
    forall i | 0 <= i < |listed| ensures Printable(UpstreamBlock(itoa, listed[i])) {
      UpstreamPrintable(lib, itoa, listed[i]);
    }
  }

  lemma {:induction false} SectionsMean(lib: Library, c: Config, listed: seq<Upstream>, sections: seq<Section>)
    requires Reads(lib, listed, sections) && ReadableMain(lib, Defaults(), sections[0])
    requires ApplyMain(lib, Defaults(), sections[0]) == c.(upstreams := [])
    requires IncreasingPriority(c.upstreams) && multiset(Enabled(listed)) == multiset(c.upstreams)
    ensures Acceptable(lib, sections) && Intended(lib, sections) == c
  {
    UpstreamsReadBack(lib, listed, sections);
    ReadsAcceptable(lib, listed, sections);
    SortRestores(Enabled(listed), c.upstreams);
  }

  lemma {:induction false} DocumentMeans(lib: Library, itoa: int -> string, c: Config, listed: seq<Upstream>,
                                         sections: seq<Section>)
    requires Faithful(lib, itoa) && WritableSettings(lib, c) && IncreasingPriority(c.upstreams)
    requires forall i | 0 <= i < |listed| :: WritableUpstream(listed[i])
    requires multiset(Enabled(listed)) == multiset(c.upstreams)
    requires AllDenote(Document(itoa, c, listed), sections)
    ensures Acceptable(lib, sections) && Intended(lib, sections) == c
  {
    DocumentReads(lib, itoa, c, listed, sections);
    assert Denotes(Document(itoa, c, listed)[0], sections[0]);
    MainReadsBack(lib, itoa, c, sections[0]);
    SectionsMean(lib, c, listed, sections);
  }

  /** A configuration that has a text, and upstreams whose enabled ones are its own. */
  ghost predicate Writable(lib: Library, itoa: int -> string, c: Config, listed: seq<Upstream>) {
    && Faithful(lib, itoa) && WritableSettings(lib, c) && IncreasingPriority(c.upstreams)
    && (forall i | 0 <= i < |listed| :: WritableUpstream(listed[i]))
    && multiset(Enabled(listed)) == multiset(c.upstreams)
  }

  ghost predicate Stands(lib: Library, sections: seq<Section>, c: Config) {
    Acceptable(lib, sections) && Intended(lib, sections) == c
  }

  lemma DocumentStands(lib: Library, itoa: int -> string, c: Config, listed: seq<Upstream>, doc: seq<Block>)
    requires Writable(lib, itoa, c, listed) && doc == Document(itoa, c, listed)
    ensures forall sections | AllDenote(doc, sections) :: Stands(lib, sections, c)
  {
    forall sections | AllDenote(doc, sections) ensures Stands(lib, sections, c) {
      DocumentMeans(lib, itoa, c, listed, sections);
    }
  }

  /** The lines are accepted by the reader and stand for `c`. */
  ghost predicate MeansConfig(lib: Library, lines: seq<string>, c: Config) {
    var sections := Assemble(Readings(lines));
    sections.Some? && Stands(lib, sections.value, c)
  }

  lemma {:induction false} PrintedMeans(lib: Library, doc: seq<Block>, c: Config)
    requires forall b <- doc :: Printable(b)
    requires forall sections | AllDenote(doc, sections) :: Stands(lib, sections, c)
    ensures MeansConfig(lib, Print(doc), c)
  {
    assert forall i | 0 <= i < |doc| :: doc[i] in doc;
    PrintedDocumentReadsBack(doc);
    assert AllDenote(doc, Assemble(Readings(Print(doc))).value);
  }

  /** Configuration round trip. The text of `c`, with its upstreams in any order
      and any disabled ones among them, is accepted and means `c`. */
  lemma {:induction false} WrittenConfigReadsBack(lib: Library, itoa: int -> string, c: Config, listed: seq<Upstream>)
    requires Writable(lib, itoa, c, listed)
    ensures MeansConfig(lib, Print(Document(itoa, c, listed)), c)
  {
    var doc := Document(itoa, c, listed);
    DocumentStands(lib, itoa, c, listed, doc);
    DocumentPrintable(lib, itoa, c, listed);
    PrintedMeans(lib, doc, c);
  }

  /** So writing a configuration and parsing the text gives it back if and only
      if it is valid. */
  method ParseWritten(lib: Library, itoa: int -> string, c: Config, listed: seq<Upstream>) returns (r: Option<Config>)
    requires Writable(lib, itoa, c, listed)
    ensures r == Some(c) <==> Valid(lib, c)
    ensures r == None <==> !Valid(lib, c)
  {
    WrittenConfigReadsBack(lib, itoa, c, listed);
    r := Parse(lib, Print(Document(itoa, c, listed)));
  }
}
