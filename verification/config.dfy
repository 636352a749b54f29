/** Reading the UCI configuration (internal/config/config.go): section assembly,
    option parsing, the filter and sort of upstreams, and validation. */
module Config {
  import opened Wrappers
  import opened Sorting
  import Uci

  const MILLISECOND := 1_000_000
  const SECOND := 1_000_000_000
  const MINUTE := 60 * SECOND

  datatype Probe = Probe(name: string, qtype: int)

  datatype Upstream = Upstream(
    name: string, enabled: bool, priority: int, protocol: string, address: string, port: int)
  {
    /** Stands for net.JoinHostPort. */
    function Endpoint(): (string, int) {
      (address, port)
    }

    /** What must agree for a health record to be carried over. */
    function Server(): (string, (string, int), string) {
      (name, Endpoint(), protocol)
    }
  }

  /** Durations are in nanoseconds. */
  datatype Config = Config(
    enabled: bool, listenAddr: string, listenPort: int,
    attemptTimeout: int, requestTimeout: int, healthInterval: int,
    failThreshold: int, recoverThreshold: int, maxConcurrent: int,
    statusSocket: string, probes: seq<Probe>, upstreams: seq<Upstream>)

  /** Library calls whose results the reader only passes on. */
  datatype Library = Library(
    atoi: string -> Option<int>,
    isIP: string -> bool,
    toLower: string -> string,
    toUpper: string -> string)

  function Defaults(): Config {
    Config(true, "127.0.0.1", 5359, 1500 * MILLISECOND, 5 * SECOND, 10 * SECOND, 3, 3, 128,
           "/var/run/failsafe-dns-proxy.sock", [], [])
  }

  // ----- Sections

  datatype Section = Section(kind: string, name: string, options: map<string, string>, lists: map<string, seq<string>>)

  function ListOf(s: Section, key: string): seq<string> {
    if key in s.lists then s.lists[key] else []
  }

  function AddFields(sections: seq<Section>, fields: seq<string>): Option<seq<Section>> {
    if fields == [] then None
    else if fields[0] == "config" then
      if |fields| < 2 || |fields| > 3 then None
      else Some(sections + [Section(fields[1], if |fields| == 3 then fields[2] else "", map[], map[])])
    else if fields[0] == "option" || fields[0] == "list" then
      if sections == [] || |fields| != 3 then None
      else
        var n := |sections| - 1;
        var current := sections[n];
        var key, value := fields[1], fields[2];
        if fields[0] == "option" then Some(sections[n := current.(options := current.options[key := value])])
        else Some(sections[n := current.(lists := current.lists[key := ListOf(current, key) + [value]])])
    else None
  }

  function AddReading(sections: seq<Section>, r: Uci.Reading): Option<seq<Section>> {
    match r
    case Blank => Some(sections)
    case Malformed => None
    case Fields(fields) => AddFields(sections, fields)
  }

  function Readings(lines: seq<string>): seq<Uci.Reading> {
    seq(|lines|, i requires 0 <= i < |lines| => Uci.ReadLine(lines[i]))
  }

  /** The sections of a file given as its line readings; None is a rejected file. */
  function Assemble(rs: seq<Uci.Reading>): Option<seq<Section>> {
    if rs == [] then Some([])
    else
      var sections :- Assemble(rs[..|rs| - 1]);
      AddReading(sections, rs[|rs| - 1])
  }

  lemma {:induction false} RejectedStaysRejected(rs: seq<Uci.Reading>, i: nat)
    requires i <= |rs| && Assemble(rs[..i]).None?
    ensures Assemble(rs).None?
    decreases |rs| - i
  {
    if i == |rs| {
      assert rs[..i] == rs;
    } else {
      assert rs[..i + 1][..i] == rs[..i];
      RejectedStaysRejected(rs, i + 1);
    }
  }

  method ReadSections(lines: seq<string>) returns (r: Option<seq<Section>>)
    ensures r == Assemble(Readings(lines))
  {
    ghost var rs := Readings(lines);
    var sections: seq<Section> := [];
    for i := 0 to |lines|
      invariant Assemble(rs[..i]) == Some(sections)
    {
      var reading := Uci.Read(lines[i]);
      var next := AddReading(sections, reading);
      assert rs[..i + 1][..i] == rs[..i];
      if next.None? {
        RejectedStaysRejected(rs, i + 1);
        return None;
      }
      sections := next.value;
    }
    assert rs[..|lines|] == rs;
    return Some(sections);
  }

  // ----- Which files assemble

  ghost predicate Opens(r: Uci.Reading) {
    r.Fields? && r.fields != [] && r.fields[0] == "config"
  }

  /** A blank line; a section header with a type and perhaps a name; or an option or
      list line with key and value, somewhere after a header. */
  ghost predicate GoodLine(rs: seq<Uci.Reading>, i: nat)
    requires i < |rs|
  {
    match rs[i]
    case Blank => true
    case Malformed => false
    case Fields(f) =>
      && f != []
      && ((f[0] == "config" && (|f| == 2 || |f| == 3))
          || ((f[0] == "option" || f[0] == "list") && |f| == 3 && exists j: nat :: j < i && Opens(rs[j])))
  }

  lemma {:induction false} HasSection(rs: seq<Uci.Reading>)
    requires Assemble(rs).Some?
    ensures Assemble(rs).value != [] <==> exists j: nat :: j < |rs| && Opens(rs[j])
  {
    if rs != [] {
      var n := |rs| - 1;
      HasSection(rs[..n]);
      if j: nat :| j < |rs| && Opens(rs[j]) {
        assert j < n ==> rs[..n][j] == rs[j];
      }
      assert forall j: nat | j < n :: rs[..n][j] == rs[j];
    }
  }

  lemma GoodLinePrefix(rs: seq<Uci.Reading>, n: nat, i: nat)
    requires i < n <= |rs|
    ensures GoodLine(rs[..n], i) <==> GoodLine(rs, i)
  {
    assert forall j: nat | j < n :: rs[..n][j] == rs[j];
  }

  lemma LastLine(rs: seq<Uci.Reading>)
    requires rs != [] && Assemble(rs[..|rs| - 1]).Some?
    ensures AddReading(Assemble(rs[..|rs| - 1]).value, rs[|rs| - 1]).Some? <==> GoodLine(rs, |rs| - 1)
  {
    var n := |rs| - 1;
    HasSection(rs[..n]);
    assert forall j: nat | j < n :: rs[..n][j] == rs[j];
  }

  /** A file is assembled if and only if each of its lines is good. */
  lemma {:induction false} AssemblesExactly(rs: seq<Uci.Reading>)
    ensures Assemble(rs).Some? <==> forall i: nat | i < |rs| :: GoodLine(rs, i)
  {
    if rs != [] {
      var n := |rs| - 1;
      AssemblesExactly(rs[..n]);
      forall i: nat | i < n ensures GoodLine(rs[..n], i) <==> GoodLine(rs, i) {
        GoodLinePrefix(rs, n, i);
      }
      if Assemble(rs[..n]).Some? {
        LastLine(rs);
      }
      assert (forall i: nat | i < |rs| :: GoodLine(rs, i)) <==>
             (forall i: nat | i < n :: GoodLine(rs, i)) && GoodLine(rs, n);
    }
  }

  // ----- A printed document reads back

  datatype Directive = Set(key: string, value: string) | Add(key: string, value: string)
  datatype Block = Block(kind: string, name: string, body: seq<Directive>)

  function Tokens3(word: string, key: string, value: string): seq<Uci.Token> {
    [Uci.Bare(word), Uci.Quoted(key), Uci.Quoted(value)]
  }

  function Tokens2(word: string, key: string): seq<Uci.Token> {
    [Uci.Bare(word), Uci.Quoted(key)]
  }

  function Print3(word: string, key: string, value: string): string {
    Uci.PrintTokens(Tokens3(word, key, value), [" ", " "])
  }

  function PrintDirective(d: Directive): string {
    "\t" + if d.Set? then Print3("option", d.key, d.value) else Print3("list", d.key, d.value)
  }

  function PrintHeader(b: Block): string {
    if b.name == "" then Uci.PrintTokens(Tokens2("config", b.kind), [" "])
    else Print3("config", b.kind, b.name)
  }

  function PrintBody(body: seq<Directive>): seq<string> {
    seq(|body|, i requires 0 <= i < |body| => PrintDirective(body[i]))
  }

  /** The document, with a blank line before every section. */
  function Print(doc: seq<Block>): seq<string> {
    if doc == [] then []
    else
      var b := doc[|doc| - 1];
      Print(doc[..|doc| - 1]) + ["", PrintHeader(b)] + PrintBody(b.body)
  }

  ghost predicate PrintableText(s: string) {
    s != "" && '\'' !in s
  }

  ghost predicate Printable(b: Block) {
    && PrintableText(b.kind) && (b.name != "" ==> PrintableText(b.name))
    && forall i | 0 <= i < |b.body| :: PrintableText(b.body[i].key) && PrintableText(b.body[i].value)
  }

  /** The last value set for a key, if any. */
  ghost function LastSet(body: seq<Directive>, key: string): Option<string> {
    if body == [] then None
    else
      var d := body[|body| - 1];
      if d.Set? && d.key == key then Some(d.value) else LastSet(body[..|body| - 1], key)
  }

  /** All values added to a key, in order. */
  ghost function AllAdded(body: seq<Directive>, key: string): seq<string> {
    if body == [] then []
    else
      var d := body[|body| - 1];
      AllAdded(body[..|body| - 1], key) + if d.Add? && d.key == key then [d.value] else []
  }

  /** `s` is what the block says: the last value of each option, every list item. */
  ghost predicate Denotes(b: Block, s: Section) {
    && s.kind == b.kind && s.name == b.name
    && (forall key :: LastSet(b.body, key) == if key in s.options then Some(s.options[key]) else None)
    && (forall key :: AllAdded(b.body, key) == ListOf(s, key))
  }

  predicate IsLetter(c: char) {
    'a' <= c <= 'z'
  }

  lemma LettersPrintable(word: string)
    requires word != "" && forall i | 0 <= i < |word| :: IsLetter(word[i])
    ensures Uci.Bare(word).Printable()
  {
  }

  lemma KeywordPrintable(word: string)
    requires word == "config" || word == "option" || word == "list"
    ensures Uci.Bare(word).Printable()
  {
    LettersPrintable(word);
  }

  lemma PrintedReads(indent: string, tokens: seq<Uci.Token>, gaps: seq<string>)
    requires Uci.AllBlank(indent) && Uci.WellSpaced(tokens, gaps)
    requires forall i | 0 <= i < |tokens| :: tokens[i].text != ""
    ensures Uci.ReadLine(indent + Uci.PrintTokens(tokens, gaps)) == Uci.Fields(Uci.Texts(tokens))
  {
    Uci.PrintedLineReadsBack(indent, tokens, gaps, "", "");
    var line := indent + Uci.PrintTokens(tokens, gaps);
    assert line + "" + "" == line;
  }

  lemma ReadsPrint3(indent: string, word: string, key: string, value: string)
    requires Uci.AllBlank(indent) && (word == "config" || word == "option" || word == "list")
    requires PrintableText(key) && PrintableText(value)
    ensures Uci.ReadLine(indent + Print3(word, key, value)) == Uci.Fields([word, key, value])
  {
    KeywordPrintable(word);
    PrintedReads(indent, Tokens3(word, key, value), [" ", " "]);
    assert Uci.Texts(Tokens3(word, key, value)) == [word, key, value];
  }

  ghost function HeaderFields(b: Block): seq<string> {
    if b.name == "" then ["config", b.kind] else ["config", b.kind, b.name]
  }

  lemma ReadsHeader(b: Block)
    requires Printable(b)
    ensures Uci.ReadLine(PrintHeader(b)) == Uci.Fields(HeaderFields(b))
  {
    assert "" + PrintHeader(b) == PrintHeader(b);
    if b.name == "" {
      var tokens := Tokens2("config", b.kind);
      KeywordPrintable("config");
      PrintedReads("", tokens, [" "]);
      assert Uci.Texts(tokens) == ["config", b.kind];
    } else {
      ReadsPrint3("", "config", b.kind, b.name);
    }
  }

  ghost function DirectiveFields(d: Directive): seq<string> {
    [if d.Set? then "option" else "list", d.key, d.value]
  }

  lemma ReadsDirective(d: Directive)
    requires PrintableText(d.key) && PrintableText(d.value)
    ensures Uci.ReadLine(PrintDirective(d)) == Uci.Fields(DirectiveFields(d))
  {
    ReadsPrint3("\t", if d.Set? then "option" else "list", d.key, d.value);
  }

  /** The section a block assembles to. */
  function SectionOf(b: Block): Section
    decreases |b.body|
  {
    if b.body == [] then Section(b.kind, b.name, map[], map[])
    else
      var n := |b.body| - 1;
      WithDirective(SectionOf(b.(body := b.body[..n])), b.body[n])
  }

  function WithDirective(s: Section, d: Directive): Section {
    if d.Set? then s.(options := s.options[d.key := d.value])
    else s.(lists := s.lists[d.key := ListOf(s, d.key) + [d.value]])
  }

  lemma DirectiveAdds(before: seq<Section>, s: Section, d: Directive)
    ensures AddFields(before + [s], DirectiveFields(d)) == Some(before + [WithDirective(s, d)])
  {
    assert (before + [s])[|before| := WithDirective(s, d)] == before + [WithDirective(s, d)];
  }

  lemma {:induction false} SectionDenotes(b: Block)
    ensures Denotes(b, SectionOf(b))
    decreases |b.body|
  {
    if b.body != [] {
      SectionDenotes(b.(body := b.body[..|b.body| - 1]));
    }
  }

  lemma AssembleSnoc(rs: seq<Uci.Reading>, r: Uci.Reading)
    ensures Assemble(rs + [r]) ==
            match Assemble(rs) case None => None case Some(sections) => AddReading(sections, r)
  {
    assert (rs + [r])[..|rs|] == rs;
  }

  ghost function BodyReadings(body: seq<Directive>): seq<Uci.Reading> {
    seq(|body|, i requires 0 <= i < |body| => Uci.Fields(DirectiveFields(body[i])))
  }

  /** The readings a document is printed for. */
  ghost function Meant(doc: seq<Block>): seq<Uci.Reading> {
    if doc == [] then []
    else
      var b := doc[|doc| - 1];
      Meant(doc[..|doc| - 1]) + [Uci.Blank, Uci.Fields(HeaderFields(b))] + BodyReadings(b.body)
  }

  lemma ReadingsOfBody(body: seq<Directive>)
    requires forall i | 0 <= i < |body| :: PrintableText(body[i].key) && PrintableText(body[i].value)
    ensures Readings(PrintBody(body)) == BodyReadings(body)
  {
    forall i | 0 <= i < |body| ensures Uci.ReadLine(PrintDirective(body[i])) == Uci.Fields(DirectiveFields(body[i])) {
      ReadsDirective(body[i]);
    }
  }

  lemma ReadingsOfHeader(b: Block)
    requires Printable(b)
    ensures Readings(["", PrintHeader(b)]) == [Uci.Blank, Uci.Fields(HeaderFields(b))]
  {
    assert Uci.ReadLine("") == Uci.Blank;
    ReadsHeader(b);
  }

  lemma ReadingsAppend(a: seq<string>, b: seq<string>)
    ensures Readings(a + b) == Readings(a) + Readings(b)
  {
  }

  lemma {:induction false} PrintedReadsAsMeant(doc: seq<Block>)
    requires forall i | 0 <= i < |doc| :: Printable(doc[i])
    ensures Readings(Print(doc)) == Meant(doc)
  {
    if doc != [] {
      var init, b := doc[..|doc| - 1], doc[|doc| - 1];
      PrintedReadsAsMeant(init);
      ReadingsOfHeader(b);
      ReadingsOfBody(b.body);
      ReadingsAppend(Print(init), ["", PrintHeader(b)]);
      ReadingsAppend(Print(init) + ["", PrintHeader(b)], PrintBody(b.body));
    }
  }

  lemma BodyReadingsSnoc(rs: seq<Uci.Reading>, body: seq<Directive>)
    requires body != []
    ensures var n := |body| - 1;
            rs + BodyReadings(body) == rs + BodyReadings(body[..n]) + [Uci.Fields(DirectiveFields(body[n]))]
  {
  }

  lemma {:induction false} BodyAssembles(rs: seq<Uci.Reading>, before: seq<Section>, b: Block)
    requires Assemble(rs) == Some(before + [Section(b.kind, b.name, map[], map[])])
    ensures Assemble(rs + BodyReadings(b.body)) == Some(before + [SectionOf(b)])
    decreases |b.body|
  {
    if b.body == [] {
      assert rs + BodyReadings(b.body) == rs;
    } else {
      var n := |b.body| - 1;
      var b0, d := b.(body := b.body[..n]), b.body[n];
      BodyAssembles(rs, before, b0);
      AssembleSnoc(rs + BodyReadings(b0.body), Uci.Fields(DirectiveFields(d)));
      BodyReadingsSnoc(rs, b.body);
      DirectiveAdds(before, SectionOf(b0), d);
    }
  }

  function SectionsOf(doc: seq<Block>): seq<Section> {
    seq(|doc|, i requires 0 <= i < |doc| => SectionOf(doc[i]))
  }

  lemma HeaderAssembles(rs: seq<Uci.Reading>, before: seq<Section>, b: Block)
    requires Assemble(rs) == Some(before)
    ensures Assemble(rs + [Uci.Blank, Uci.Fields(HeaderFields(b))])
            == Some(before + [Section(b.kind, b.name, map[], map[])])
  {
    AssembleSnoc(rs, Uci.Blank);
    AssembleSnoc(rs + [Uci.Blank], Uci.Fields(HeaderFields(b)));
    assert rs + [Uci.Blank] + [Uci.Fields(HeaderFields(b))] == rs + [Uci.Blank, Uci.Fields(HeaderFields(b))];
  }

  lemma BlockAssembles(rs: seq<Uci.Reading>, before: seq<Section>, b: Block)
    requires Assemble(rs) == Some(before)
    ensures Assemble(rs + [Uci.Blank, Uci.Fields(HeaderFields(b))] + BodyReadings(b.body))
            == Some(before + [SectionOf(b)])
  {
    HeaderAssembles(rs, before, b);
    BodyAssembles(rs + [Uci.Blank, Uci.Fields(HeaderFields(b))], before, b);
  }

  lemma SectionsOfSnoc(doc: seq<Block>)
    requires doc != []
    ensures SectionsOf(doc) == SectionsOf(doc[..|doc| - 1]) + [SectionOf(doc[|doc| - 1])]
  {
  }

  lemma {:induction false} MeantAssembles(doc: seq<Block>)
    ensures Assemble(Meant(doc)) == Some(SectionsOf(doc))
  {
    if doc == [] {
      assert SectionsOf(doc) == [];
    } else {
      var n := |doc| - 1;
      MeantAssembles(doc[..n]);
      BlockAssembles(Meant(doc[..n]), SectionsOf(doc[..n]), doc[n]);
      SectionsOfSnoc(doc);
    }
  }

  /** Document round trip: a printed document is accepted and assembles to one
      section per block, in order, that says what the block says. */
  lemma {:induction false} PrintedDocumentReadsBack(doc: seq<Block>)
    requires forall i | 0 <= i < |doc| :: Printable(doc[i])
    ensures Assemble(Readings(Print(doc))).Some?
    ensures var s := Assemble(Readings(Print(doc))).value;
            |s| == |doc| && forall i | 0 <= i < |doc| :: Denotes(doc[i], s[i])
  {
    PrintedReadsAsMeant(doc);
    MeantAssembles(doc);
    forall i | 0 <= i < |doc| ensures Denotes(doc[i], SectionsOf(doc)[i]) {
      SectionDenotes(doc[i]);
    }
  }

  // ----- Options

  function BoolOption(s: Section, key: string, fallback: bool): Option<bool> {
    if key !in s.options then Some(fallback)
    else if s.options[key] in ["1", "true", "yes", "on"] then Some(true)
    else if s.options[key] in ["0", "false", "no", "off"] then Some(false)
    else None
  }

  function IntOption(lib: Library, s: Section, key: string, fallback: int): Option<int> {
    if key in s.options then lib.atoi(s.options[key]) else Some(fallback)
  }

  function StringOption(s: Section, key: string, fallback: string): string {
    if key in s.options then s.options[key] else fallback
  }

  /** The int64 value of a product. */
  function Wrap64(x: int): int {
    (x + 0x8000_0000_0000_0000) % 0x1_0000_0000_0000_0000 - 0x8000_0000_0000_0000
  }

  /** Arithmetic of int64: the value in range that differs by a multiple of 2^64. */
  lemma WrapsAt64(x: int) returns (q: int)
    ensures -9_223_372_036_854_775_808 <= Wrap64(x) <= 9_223_372_036_854_775_807
    ensures x == Wrap64(x) + q * 18_446_744_073_709_551_616
  {
    q := (x + 0x8000_0000_0000_0000) / 0x1_0000_0000_0000_0000;
  }

  /** The words for yes and for no, and nothing else. */
  lemma BooleanWords(s: Section, key: string, fallback: bool)
    requires key in s.options
    ensures var word := s.options[key];
            BoolOption(s, key, fallback) ==
              if word == "1" || word == "true" || word == "yes" || word == "on" then Some(true)
              else if word == "0" || word == "false" || word == "no" || word == "off" then Some(false)
              else None
  {
  }

  /** Where strings.Cut splits: the first colon, if any. */
  function ColonAt(s: string): (n: nat)
    ensures n <= |s| && (n < |s| ==> s[n] == ':')
  {
    if s == "" || s[0] == ':' then 0 else 1 + ColonAt(s[1..])
  }

  function ParseProbe(lib: Library, raw: string): (r: Option<Probe>)
    ensures r.Some? ==> ':' in raw && r.value.qtype in {1, 28}
    ensures r.Some? ==> r.value.name != "" && r.value.name[|r.value.name| - 1] == '.'
  {
    var n := ColonAt(raw);
    if n == |raw| || Uci.TrimSpace(raw[..n]) == "" then None
    else
      var name := Dotted(lib.toLower(Uci.TrimSpace(raw[..n])));
      var qtype :- QueryType(lib.toUpper(Uci.TrimSpace(raw[n + 1..])));
      Some(Probe(name, qtype))
  }

  function Dotted(name: string): string {
    if name != "" && name[|name| - 1] == '.' then name else name + "."
  }

  function QueryType(kind: string): Option<int> {
    if kind == "A" then Some(1) else if kind == "AAAA" then Some(28) else None
  }

  lemma {:induction false} ColonAfter(name: string, rest: string)
    requires ':' !in name
    ensures ColonAt(name + ":" + rest) == |name|
  {
    var s := name + ":" + rest;
    if name != "" {
      assert name[0] in name;
      assert s[1..] == name[1..] + ":" + rest;
      ColonAfter(name[1..], rest);
    }
  }

  ghost predicate SplitsAtColon(raw: string, name: string, kind: string) {
    raw == name + ":" + kind && ':' !in name
  }

  lemma {:induction false} BeforeColon(raw: string)
    ensures ':' !in raw[..ColonAt(raw)]
  {
    if raw != "" && raw[0] != ':' {
      BeforeColon(raw[1..]);
      assert raw[..ColonAt(raw)] == [raw[0]] + raw[1..][..ColonAt(raw[1..])];
    }
  }

  ghost predicate EndsInDot(s: string) {
    s != "" && s[|s| - 1] == '.'
  }

  /** What a probe text means, exactly: it is split at its first colon, the name
      before it is not blank; the probe asks for the trimmed lower-case name, with a
      dot added if it has none at the end, and for type 1 if the trimmed upper-case
      rest is A, 28 if it is AAAA. */
  lemma ProbeMeaning(lib: Library, raw: string, p: Probe)
    ensures ParseProbe(lib, raw) == Some(p) <==>
            exists before, after :: SplitsAtColon(raw, before, after) && Uci.TrimSpace(before) != ""
              && var name, kind := lib.toLower(Uci.TrimSpace(before)), lib.toUpper(Uci.TrimSpace(after));
                 && p.name == (if EndsInDot(name) then name else name + ".")
                 && ((kind == "A" && p.qtype == 1) || (kind == "AAAA" && p.qtype == 28))
  {
    var n := ColonAt(raw);
    BeforeColon(raw);
    if n < |raw| {
      assert raw == raw[..n] + ":" + raw[n + 1..];
      assert SplitsAtColon(raw, raw[..n], raw[n + 1..]);
    }
    forall name, kind | SplitsAtColon(raw, name, kind) ensures n == |name| && raw[..n] == name && raw[n + 1..] == kind {
      ColonAfter(name, kind);
    }
  }

  lemma TrimKind()
    ensures Uci.TrimSpace("A") == "A" && Uci.TrimSpace("AAAA") == "AAAA"
  {
  }

  /** So a plain name gives a probe for that name, written with its final dot. */
  lemma NamedProbe(lib: Library, name: string)
    requires name != "" && ':' !in name && Uci.TrimSpace(name) == name && lib.toLower(name) == name
    requires lib.toUpper("A") == "A" && lib.toUpper("AAAA") == "AAAA"
    ensures var full := if EndsInDot(name) then name else name + ".";
            && ParseProbe(lib, name + ":A") == Some(Probe(full, 1))
            && ParseProbe(lib, name + ":AAAA") == Some(Probe(full, 28))
  {
    TrimKind();
    assert SplitsAtColon(name + ":A", name, "A") && SplitsAtColon(name + ":AAAA", name, "AAAA");
    var full := if EndsInDot(name) then name else name + ".";
    ProbeMeaning(lib, name + ":A", Probe(full, 1));
    ProbeMeaning(lib, name + ":AAAA", Probe(full, 28));
  }

  function ParseAll(raw: seq<string>, parse: string -> Option<Probe>): Option<seq<Probe>> {
    if raw == [] then Some([])
    else
      var init :- ParseAll(raw[..|raw| - 1], parse);
      var last :- parse(raw[|raw| - 1]);
      Some(init + [last])
  }

  function ParseProbes(lib: Library, raw: seq<string>): Option<seq<Probe>> {
    ParseAll(raw, s => ParseProbe(lib, s))
  }

  predicate ReadableMain(lib: Library, cfg: Config, s: Section) {
    && BoolOption(s, "enabled", cfg.enabled).Some?
    && IntOption(lib, s, "listen_port", cfg.listenPort).Some?
    && IntOption(lib, s, "attempt_timeout_ms", cfg.attemptTimeout / MILLISECOND).Some?
    && IntOption(lib, s, "request_timeout_ms", cfg.requestTimeout / MILLISECOND).Some?
    && IntOption(lib, s, "health_interval_s", cfg.healthInterval / SECOND).Some?
    && IntOption(lib, s, "fail_threshold", cfg.failThreshold).Some?
    && IntOption(lib, s, "recover_threshold", cfg.recoverThreshold).Some?
    && IntOption(lib, s, "max_concurrent", cfg.maxConcurrent).Some?
    && ParseProbes(lib, ListOf(s, "probe")).Some?
  }

  function ApplyMain(lib: Library, cfg: Config, s: Section): Config
    requires ReadableMain(lib, cfg, s)
  {
    Config(BoolOption(s, "enabled", cfg.enabled).value,
           StringOption(s, "listen_addr", cfg.listenAddr),
           IntOption(lib, s, "listen_port", cfg.listenPort).value,
           Wrap64(IntOption(lib, s, "attempt_timeout_ms", cfg.attemptTimeout / MILLISECOND).value * MILLISECOND),
           Wrap64(IntOption(lib, s, "request_timeout_ms", cfg.requestTimeout / MILLISECOND).value * MILLISECOND),
           Wrap64(IntOption(lib, s, "health_interval_s", cfg.healthInterval / SECOND).value * SECOND),
           IntOption(lib, s, "fail_threshold", cfg.failThreshold).value,
           IntOption(lib, s, "recover_threshold", cfg.recoverThreshold).value,
           IntOption(lib, s, "max_concurrent", cfg.maxConcurrent).value,
           StringOption(s, "status_socket", cfg.statusSocket),
           cfg.probes + ParseProbes(lib, ListOf(s, "probe")).value,
           cfg.upstreams)
  }

  function ParseUpstream(lib: Library, s: Section): Option<Upstream> {
    if s.name == "" then None
    else
      var enabled :- BoolOption(s, "enabled", true);
      var priority :- IntOption(lib, s, "priority", 0);
      var port :- IntOption(lib, s, "port", 53);
      Some(Upstream(s.name, enabled, priority, lib.toLower(StringOption(s, "protocol", "udp")),
                    StringOption(s, "address", ""), port))
  }

  lemma DefaultTimes()
    ensures Wrap64(Defaults().attemptTimeout / MILLISECOND * MILLISECOND) == 1_500_000_000
    ensures Wrap64(Defaults().requestTimeout / MILLISECOND * MILLISECOND) == 5_000_000_000
    ensures Wrap64(Defaults().healthInterval / SECOND * SECOND) == 10_000_000_000
  {
  }

  /** What a main section that leaves an option out means: times, in nanoseconds. */
  lemma AbsentTimes(lib: Library, s: Section)
    requires ReadableMain(lib, Defaults(), s)
    ensures var c := ApplyMain(lib, Defaults(), s);
            && ("attempt_timeout_ms" !in s.options ==> c.attemptTimeout == 1_500_000_000)
            && ("request_timeout_ms" !in s.options ==> c.requestTimeout == 5_000_000_000)
            && ("health_interval_s" !in s.options ==> c.healthInterval == 10_000_000_000)
  {
    DefaultTimes();
  }

  /** The other settings. */
  lemma AbsentOptions(lib: Library, s: Section)
    requires ReadableMain(lib, Defaults(), s)
    ensures var c := ApplyMain(lib, Defaults(), s);
            && ("enabled" !in s.options ==> c.enabled)
            && ("listen_addr" !in s.options ==> c.listenAddr == "127.0.0.1")
            && ("listen_port" !in s.options ==> c.listenPort == 5359)
            && ("fail_threshold" !in s.options ==> c.failThreshold == 3)
            && ("recover_threshold" !in s.options ==> c.recoverThreshold == 3)
            && ("max_concurrent" !in s.options ==> c.maxConcurrent == 128)
            && ("status_socket" !in s.options ==> c.statusSocket == "/var/run/failsafe-dns-proxy.sock")
            && ("probe" !in s.lists ==> c.probes == [])
  {
    assert "probe" !in s.lists ==> ListOf(s, "probe") == [];
  }

  /** What an upstream section that leaves an option out means. */
  lemma AbsentUpstreamOptions(lib: Library, s: Section)
    requires ParseUpstream(lib, s).Some?
    ensures var u := ParseUpstream(lib, s).value;
            && u.name == s.name != ""
            && ("enabled" !in s.options ==> u.enabled)
            && ("priority" !in s.options ==> u.priority == 0)
            && ("port" !in s.options ==> u.port == 53)
            && ("protocol" !in s.options ==> u.protocol == lib.toLower("udp"))
            && ("address" !in s.options ==> u.address == "")
  {
  }

  // ----- Validation

  ghost predicate ValidUpstream(lib: Library, u: Upstream) {
    u.priority >= 0 && u.protocol in {"udp", "tcp"} && lib.isIP(u.address) && 1 <= u.port <= 65535
  }

  ghost predicate PairwiseDistinct(us: seq<Upstream>) {
    forall i, j | 0 <= i < j < |us| :: us[i].name != us[j].name && us[i].priority != us[j].priority
  }

  ghost predicate ValidSettings(lib: Library, c: Config) {
    && lib.isIP(c.listenAddr) && 1 <= c.listenPort <= 65535
    && 0 < c.attemptTimeout <= c.requestTimeout && c.healthInterval > 0
    && c.failThreshold >= 1 && c.recoverThreshold >= 1 && c.maxConcurrent >= 1
    && c.statusSocket != "" && c.probes != [] && c.upstreams != []
  }

  ghost predicate Valid(lib: Library, c: Config) {
    && ValidSettings(lib, c)
    && (forall i | 0 <= i < |c.upstreams| :: ValidUpstream(lib, c.upstreams[i]))
    && PairwiseDistinct(c.upstreams)
  }

  datatype Problem =
    | ListenAddr | ListenPort | AttemptTimeout | RequestTimeout | HealthInterval | Thresholds | MaxConcurrent
    | StatusSocket | NoProbe | NoUpstream
    | DuplicateName(name: string) | DuplicatePriority(priority: int)
    | NegativePriority(name: string) | Protocol(name: string) | Address(name: string) | Port(name: string)

  /** What each problem with the settings says. */
  ghost predicate SettingWrong(lib: Library, c: Config, p: Problem) {
    match p
    case ListenAddr => !lib.isIP(c.listenAddr)
    case ListenPort => c.listenPort <= 0 || c.listenPort >= 65536
    case AttemptTimeout => c.attemptTimeout <= 0
    case RequestTimeout => c.requestTimeout < c.attemptTimeout
    case HealthInterval => c.healthInterval <= 0
    case Thresholds => c.failThreshold <= 0 || c.recoverThreshold <= 0
    case MaxConcurrent => c.maxConcurrent <= 0
    case StatusSocket => c.statusSocket == ""
    case NoProbe => c.probes == []
    case NoUpstream => c.upstreams == []
    case _ => false
  }

  /** What each problem with one upstream says. */
  ghost predicate UpstreamWrong(lib: Library, u: Upstream, p: Problem) {
    match p
    case NegativePriority(name) => name == u.name && u.priority < 0
    case Protocol(name) => name == u.name && u.protocol !in {"udp", "tcp"}
    case Address(name) => name == u.name && !lib.isIP(u.address)
    case Port(name) => name == u.name && (u.port <= 0 || u.port >= 65536)
    case _ => false
  }

  /** One check: the problem is appended if there is one. */
  function AddIf(problems: seq<Problem>, wrong: bool, p: Problem): (r: seq<Problem>)
    ensures r == [] <==> problems == [] && !wrong
    ensures forall q :: q in r <==> q in problems || (wrong && q == p)
  {
    if wrong then problems + [p] else problems
  }

  ghost predicate AboutListening(p: Problem) {
    p.ListenAddr? || p.ListenPort? || p.AttemptTimeout? || p.RequestTimeout? || p.HealthInterval?
  }

  method CheckListening(lib: Library, c: Config) returns (problems: seq<Problem>)
    ensures problems == [] <==>
              && lib.isIP(c.listenAddr) && 1 <= c.listenPort <= 65535
              && 0 < c.attemptTimeout <= c.requestTimeout && c.healthInterval > 0
    ensures forall p :: p in problems <==> AboutListening(p) && SettingWrong(lib, c, p)
  {
    problems := AddIf([], !lib.isIP(c.listenAddr), ListenAddr);
    problems := AddIf(problems, c.listenPort < 1 || c.listenPort > 65535, ListenPort);
    problems := AddIf(problems, c.attemptTimeout <= 0, AttemptTimeout);
    problems := AddIf(problems, c.requestTimeout < c.attemptTimeout, RequestTimeout);
    problems := AddIf(problems, c.healthInterval <= 0, HealthInterval);
  }

  method CheckLimits(lib: Library, c: Config) returns (problems: seq<Problem>)
    ensures problems == [] <==>
              && c.failThreshold >= 1 && c.recoverThreshold >= 1 && c.maxConcurrent >= 1
              && c.statusSocket != "" && c.probes != [] && c.upstreams != []
    ensures forall p :: p in problems <==> !AboutListening(p) && SettingWrong(lib, c, p)
  {
    problems := AddIf([], c.failThreshold < 1 || c.recoverThreshold < 1, Thresholds);
    problems := AddIf(problems, c.maxConcurrent < 1, MaxConcurrent);
    problems := AddIf(problems, c.statusSocket == "", StatusSocket);
    problems := AddIf(problems, |c.probes| == 0, NoProbe);
    problems := AddIf(problems, |c.upstreams| == 0, NoUpstream);
  }

  method CheckSettings(lib: Library, c: Config) returns (problems: seq<Problem>)
    ensures problems == [] <==> ValidSettings(lib, c)
    ensures forall p :: p in problems <==> SettingWrong(lib, c, p)
  {
    var listening := CheckListening(lib, c);
    var limits := CheckLimits(lib, c);
    return listening + limits;
  }

  method CheckUpstream(lib: Library, u: Upstream) returns (problems: seq<Problem>)
    ensures problems == [] <==> ValidUpstream(lib, u)
    ensures forall p :: p in problems <==> UpstreamWrong(lib, u, p)
  {
    problems := [];
    problems := AddIf(problems, u.priority < 0, NegativePriority(u.name));
    problems := AddIf(problems, u.protocol != "udp" && u.protocol != "tcp", Protocol(u.name));
    problems := AddIf(problems, !lib.isIP(u.address), Address(u.name));
    problems := AddIf(problems, u.port < 1 || u.port > 65535, Port(u.name));
  }

  /** The upstream repeats neither a name nor a priority of those before it. */
  ghost predicate New(us: seq<Upstream>, i: nat)
    requires i < |us|
  {
    forall j | 0 <= j < i :: us[j].name != us[i].name && us[j].priority != us[i].priority
  }

  /** The maps hold exactly the names and priorities of the first upstreams. */
  ghost predicate Seen(us: seq<Upstream>, i: nat, names: map<string, bool>, priorities: map<int, bool>)
    requires i <= |us|
  {
    && names.Keys == (set j | 0 <= j < i :: us[j].name)
    && priorities.Keys == (set j | 0 <= j < i :: us[j].priority)
  }

  lemma SeenSnoc(us: seq<Upstream>, i: nat, names: map<string, bool>, priorities: map<int, bool>)
    requires i < |us| && Seen(us, i, names, priorities)
    ensures us[i].name !in names && us[i].priority !in priorities <==> New(us, i)
    ensures Seen(us, i + 1, names[us[i].name := true], priorities[us[i].priority := true])
  {
    var u := us[i];
    assert (set j | 0 <= j < i + 1 :: us[j].name) == (set j | 0 <= j < i :: us[j].name) + {u.name};
    assert (set j | 0 <= j < i + 1 :: us[j].priority) == (set j | 0 <= j < i :: us[j].priority) + {u.priority};
    if j :| 0 <= j < i && !(us[j].name != u.name && us[j].priority != u.priority) {
      assert us[j].name in names.Keys && us[j].priority in priorities.Keys;
    }
  }

  ghost predicate ValidUpTo(lib: Library, us: seq<Upstream>, i: nat)
    requires i <= |us|
  {
    forall j: nat | j < i :: ValidUpstream(lib, us[j]) && New(us, j)
  }

  lemma ValidIsDistinct(lib: Library, us: seq<Upstream>)
    ensures ValidUpTo(lib, us, |us|) <==>
            (forall i | 0 <= i < |us| :: ValidUpstream(lib, us[i])) && PairwiseDistinct(us)
  {
    if ValidUpTo(lib, us, |us|) {
      forall i, j | 0 <= i < j < |us| ensures us[i].name != us[j].name && us[i].priority != us[j].priority {
        assert New(us, j);
      }
    }
  }

  /** The problem is that the upstream at i repeats a name or a priority. */
  ghost predicate Repeats(us: seq<Upstream>, i: nat, p: Problem)
    requires i < |us|
  {
    match p
    case DuplicateName(name) => name == us[i].name && exists j: nat :: j < i && us[j].name == us[i].name
    case DuplicatePriority(n) => n == us[i].priority && exists j: nat :: j < i && us[j].priority == us[i].priority
    case _ => false
  }

  method CheckRepeats(us: seq<Upstream>, i: nat, names: map<string, bool>, priorities: map<int, bool>)
    returns (problems: seq<Problem>)
    requires i < |us| && Seen(us, i, names, priorities)
    ensures problems == [] <==> New(us, i)
    ensures forall p :: p in problems <==> Repeats(us, i, p)
  {
    SeenSnoc(us, i, names, priorities);
    var u := us[i];
    problems := [];
    problems := AddIf(problems, u.name in names, DuplicateName(u.name));
    problems := AddIf(problems, u.priority in priorities, DuplicatePriority(u.priority));
    assert u.name in names <==> exists j: nat :: j < i && us[j].name == u.name;
    assert u.priority in priorities <==> exists j: nat :: j < i && us[j].priority == u.priority;
  }

  /** The problems of a configuration. */
  ghost predicate Wrong(lib: Library, c: Config, n: nat, p: Problem)
    requires n <= |c.upstreams|
  {
    SettingWrong(lib, c, p)
    || exists i: nat :: i < n && (UpstreamWrong(lib, c.upstreams[i], p) || Repeats(c.upstreams, i, p))
  }

  lemma WrongSnoc(lib: Library, c: Config, n: nat, p: Problem)
    requires n < |c.upstreams|
    ensures Wrong(lib, c, n + 1, p) <==>
            Wrong(lib, c, n, p) || UpstreamWrong(lib, c.upstreams[n], p) || Repeats(c.upstreams, n, p)
  {
  }

  /** The problems reported are exactly those there are; none if and only if the
      configuration is valid, duplicates meaning pairwise. */
  method Validate(lib: Library, c: Config) returns (problems: seq<Problem>)
    ensures problems == [] <==> Valid(lib, c)
    ensures forall p :: p in problems <==> Wrong(lib, c, |c.upstreams|, p)
  {
    problems := CheckSettings(lib, c);
    ghost var settings := ValidSettings(lib, c);
    var us := c.upstreams;
    var names: map<string, bool>, priorities: map<int, bool> := map[], map[];
    for i := 0 to |us|
      invariant Seen(us, i, names, priorities)
      invariant problems == [] <==> settings && ValidUpTo(lib, us, i)
      invariant forall p :: p in problems <==> Wrong(lib, c, i, p)
    {
      var repeats := CheckRepeats(us, i, names, priorities);
      SeenSnoc(us, i, names, priorities);
      names := names[us[i].name := true];
      priorities := priorities[us[i].priority := true];
      var own := CheckUpstream(lib, us[i]);
      forall p ensures p in problems + repeats + own <==> Wrong(lib, c, i + 1, p) {
        WrongSnoc(lib, c, i, p);
      }
      problems := problems + repeats + own;
    }
    ValidIsDistinct(lib, us);
  }

  // ----- From sections to a configuration

  predicate StringLess(a: string, b: string) {
    b != "" && (a == "" || a[0] < b[0] || (a[0] == b[0] && StringLess(a[1..], b[1..])))
  }

  predicate UpstreamLess(a: Upstream, b: Upstream) {
    if a.priority == b.priority then StringLess(a.name, b.name) else a.priority < b.priority
  }

  predicate PriorityLess(a: Upstream, b: Upstream) {
    a.priority < b.priority
  }

  lemma {:induction false} StringLessAsymmetric(a: string, b: string)
    ensures StringLess(a, b) ==> !StringLess(b, a)
  {
    if a != "" && b != "" {
      StringLessAsymmetric(a[1..], b[1..]);
    }
  }

  lemma UpstreamLessAsymmetric()
    ensures Asymmetric(UpstreamLess)
  {
    forall a: Upstream, b: Upstream | UpstreamLess(a, b) ensures !UpstreamLess(b, a) {
      StringLessAsymmetric(a.name, b.name);
    }
  }

  function Mains(sections: seq<Section>): seq<Section> {
    if sections == [] then []
    else
      var last := sections[|sections| - 1];
      Mains(sections[..|sections| - 1]) + if last.kind == "main" then [last] else []
  }

  function EnabledUpstreams(lib: Library, sections: seq<Section>): seq<Upstream> {
    if sections == [] then []
    else
      var last := sections[|sections| - 1];
      var u := ParseUpstream(lib, last);
      EnabledUpstreams(lib, sections[..|sections| - 1])
      + if last.kind == "upstream" && u.Some? && u.value.enabled then [u.value] else []
  }

  ghost predicate Acceptable(lib: Library, sections: seq<Section>) {
    && |Mains(sections)| == 1
    && ReadableMain(lib, Defaults(), Mains(sections)[0])
    && forall i | 0 <= i < |sections| :: AcceptableSection(lib, sections[i])
  }

  ghost predicate AcceptableSection(lib: Library, s: Section) {
    s.kind == "main" || (s.kind == "upstream" && ParseUpstream(lib, s).Some?)
  }

  ghost function Intended(lib: Library, sections: seq<Section>): Config
    requires Acceptable(lib, sections)
  {
    var us := SortStable(EnabledUpstreams(lib, sections), UpstreamLess);
    ApplyMain(lib, Defaults(), Mains(sections)[0]).(upstreams := us)
  }

  /** The state of the loop over the sections: the settings, whether main was
      seen, and the upstream list, which applyMain does not touch. */
  datatype Progress = Progress(cfg: Config, haveMain: bool, upstreams: seq<Upstream>)

  function AddSection(lib: Library, p: Progress, s: Section): Option<Progress> {
    if s.kind == "main" then
      if p.haveMain || !ReadableMain(lib, p.cfg, s) then None
      else Some(p.(haveMain := true, cfg := ApplyMain(lib, p.cfg, s)))
    else if s.kind == "upstream" then
      var u :- ParseUpstream(lib, s);
      Some(if u.enabled then p.(upstreams := p.upstreams + [u]) else p)
    else None
  }

  function Collected(lib: Library, sections: seq<Section>): Option<Progress> {
    if sections == [] then Some(Progress(Defaults(), false, []))
    else
      var p :- Collected(lib, sections[..|sections| - 1]);
      AddSection(lib, p, sections[|sections| - 1])
  }

  lemma {:induction false} UncollectedStays(lib: Library, sections: seq<Section>, i: nat)
    requires i <= |sections| && Collected(lib, sections[..i]).None?
    ensures Collected(lib, sections).None?
    decreases |sections| - i
  {
    if i == |sections| {
      assert sections[..i] == sections;
    } else {
      assert sections[..i + 1][..i] == sections[..i];
      UncollectedStays(lib, sections, i + 1);
    }
  }

  /** What the loop has done so far, apart from the settings. */
  ghost predicate Collects(lib: Library, sections: seq<Section>) {
    && |Mains(sections)| <= 1
    && (Mains(sections) != [] ==> ReadableMain(lib, Defaults(), Mains(sections)[0]))
    && forall i | 0 <= i < |sections| :: AcceptableSection(lib, sections[i])
  }

  ghost function CollectedValue(lib: Library, sections: seq<Section>): Progress
    requires Collects(lib, sections)
  {
    var m := Mains(sections);
    Progress(if m == [] then Defaults() else ApplyMain(lib, Defaults(), m[0]), m != [], EnabledUpstreams(lib, sections))
  }

  lemma {:induction false} CollectedMeaning(lib: Library, sections: seq<Section>)
    ensures Collected(lib, sections) == if Collects(lib, sections) then Some(CollectedValue(lib, sections)) else None
  {
    if sections != [] {
      var init, s := sections[..|sections| - 1], sections[|sections| - 1];
      CollectedMeaning(lib, init);
      CollectsSnoc(lib, sections);
      if Collects(lib, sections) {
        ValueSnoc(lib, sections);
      } else if Collects(lib, init) {
        RejectsSnoc(lib, CollectedValue(lib, init), s);
      }
    }
  }

  lemma ValueSnoc(lib: Library, sections: seq<Section>)
    requires sections != [] && Collects(lib, sections) && Collects(lib, sections[..|sections| - 1])
    ensures AddSection(lib, CollectedValue(lib, sections[..|sections| - 1]), sections[|sections| - 1])
         == Some(CollectedValue(lib, sections))
  {
    var init, s := sections[..|sections| - 1], sections[|sections| - 1];
    assert AcceptableSection(lib, s);
    assert Mains(sections) == if s.kind == "main" then Mains(init) + [s] else Mains(init);
    assert s.kind == "main" ==> EnabledUpstreams(lib, sections) == EnabledUpstreams(lib, init);
    if s.kind == "upstream" && !ParseUpstream(lib, s).value.enabled {
      assert EnabledUpstreams(lib, sections) == EnabledUpstreams(lib, init);
    }
  }

  lemma RejectsSnoc(lib: Library, p: Progress, s: Section)
    requires p.haveMain || p.cfg == Defaults()
    requires !AcceptableSection(lib, s) || (s.kind == "main" && (p.haveMain || !ReadableMain(lib, Defaults(), s)))
    ensures AddSection(lib, p, s) == None
  {
  }

  lemma CollectsSnoc(lib: Library, sections: seq<Section>)
    requires sections != []
    ensures var init, s := sections[..|sections| - 1], sections[|sections| - 1];
            Collects(lib, sections) <==>
              && Collects(lib, init) && AcceptableSection(lib, s)
              && (s.kind == "main" ==> Mains(init) == [] && ReadableMain(lib, Defaults(), s))
  {
    var init := sections[..|sections| - 1];
    assert forall i | 0 <= i < |init| :: init[i] == sections[i];
  }

  method Collect(lib: Library, sections: seq<Section>) returns (r: Option<Progress>)
    ensures r == Collected(lib, sections)
  {
    var p := Progress(Defaults(), false, []);
    for i := 0 to |sections|
      invariant Collected(lib, sections[..i]) == Some(p)
    {
      assert sections[..i + 1][..i] == sections[..i];
      var next := AddSection(lib, p, sections[i]);
      if next.None? {
        UncollectedStays(lib, sections, i + 1);
        return None;
      }
      p := next.value;
    }
    assert sections[..|sections|] == sections;
    return Some(p);
  }

  /** The accepted files and their meaning: exactly one main section, only known
      sections, readable options, and a valid result. */
  method Build(lib: Library, sections: seq<Section>) returns (r: Option<Config>)
    ensures r.Some? <==> Acceptable(lib, sections) && Valid(lib, Intended(lib, sections))
    ensures r.Some? ==> r.value == Intended(lib, sections)
  {
    CollectedMeaning(lib, sections);
    var collected := Collect(lib, sections);
    if collected.None? || !collected.value.haveMain {
      return None;
    }
    var cfg := collected.value.cfg.(upstreams := SortStable(collected.value.upstreams, UpstreamLess));
    var problems := Validate(lib, cfg);
    return if problems == [] then Some(cfg) else None;
  }

  method Parse(lib: Library, lines: seq<string>) returns (r: Option<Config>)
    ensures r.Some? <==>
            && Assemble(Readings(lines)).Some?
            && Acceptable(lib, Assemble(Readings(lines)).value)
            && Valid(lib, Intended(lib, Assemble(Readings(lines)).value))
    ensures r.Some? ==> r.value == Intended(lib, Assemble(Readings(lines)).value)
  {
    var sections := ReadSections(lines);
    if sections.None? {
      return None;
    }
    r := Build(lib, sections.value);
  }

  // ----- What every accepted configuration is

  ghost predicate IncreasingPriority(us: seq<Upstream>) {
    forall i, j | 0 <= i < j < |us| :: us[i].priority < us[j].priority
  }

  /** What the daemon relies on: strict priority order, distinct non-empty names. */
  ghost predicate WellFormed(c: Config) {
    && c.upstreams != [] && IncreasingPriority(c.upstreams)
    && (forall i | 0 <= i < |c.upstreams| :: c.upstreams[i].name != "")
    && (forall i, j | 0 <= i < j < |c.upstreams| :: c.upstreams[i].name != c.upstreams[j].name)
    && 0 < c.attemptTimeout <= c.requestTimeout && c.healthInterval > 0
    && c.failThreshold >= 1 && c.recoverThreshold >= 1 && c.maxConcurrent >= 1
  }

  ghost predicate ReadsAs(lib: Library, s: Section, u: Upstream) {
    s.kind == "upstream" && ParseUpstream(lib, s) == Some(u)
  }

  lemma {:induction false} EnabledAreSections(lib: Library, sections: seq<Section>, u: Upstream)
    ensures u in EnabledUpstreams(lib, sections) <==>
            && u.enabled
            && exists i :: 0 <= i < |sections| && ReadsAs(lib, sections[i], u)
  {
    if sections != [] {
      var n := |sections| - 1;
      EnabledAreSections(lib, sections[..n], u);
      if i :| 0 <= i < |sections| && ReadsAs(lib, sections[i], u) {
        assert i < n ==> sections[..n][i] == sections[i];
      }
    }
  }

  ghost predicate PrioritiesDiffer(us: seq<Upstream>) {
    forall i, j | 0 <= i < j < |us| :: us[i].priority != us[j].priority
  }

  lemma {:induction false} OrderedIncreases(us: seq<Upstream>)
    requires Ordered(us, UpstreamLess) && PrioritiesDiffer(us)
    ensures IncreasingPriority(us)
  {
    if |us| > 1 {
      var n := |us| - 1;
      OrderedIncreases(us[..n]);
      assert us[n - 1].priority != us[n].priority;
      assert !UpstreamLess(us[n], us[n - 1]);
      assert forall i | 0 <= i < n :: us[..n][i] == us[i];
    }
  }

  lemma {:induction false} SortedListShape(enabled: seq<Upstream>, us: seq<Upstream>)
    requires us == SortStable(enabled, UpstreamLess) && PairwiseDistinct(us)
    requires forall u <- enabled :: u.name != ""
    ensures multiset(us) == multiset(enabled)
    ensures IncreasingPriority(us) && SortStable(us, PriorityLess) == us
    ensures forall i | 0 <= i < |us| :: us[i].name != ""
  {
    SortPermutes(enabled, UpstreamLess);
    UpstreamLessAsymmetric();
    SortOrders(enabled, UpstreamLess);
    OrderedIncreases(us);
    SortKeepsOrdered(us, PriorityLess);
    forall i | 0 <= i < |us| ensures us[i].name != "" {
      assert us[i] in multiset(us);
      assert us[i] in enabled;
    }
  }

  lemma {:induction false} EnabledAreNamed(lib: Library, sections: seq<Section>)
    ensures forall u <- EnabledUpstreams(lib, sections) :: u.name != ""
  {
    forall u <- EnabledUpstreams(lib, sections) ensures u.name != "" {
      EnabledAreSections(lib, sections, u);
    }
  }

  lemma ValidIsWellFormed(lib: Library, c: Config)
    requires Valid(lib, c) && IncreasingPriority(c.upstreams)
    requires forall i | 0 <= i < |c.upstreams| :: c.upstreams[i].name != ""
    ensures WellFormed(c)
  {
  }

  /** Every accepted configuration lists a permutation of the enabled sections
      in strictly increasing priority with distinct non-empty names, and the
      manager's own stable sort by priority leaves that list as it is. */
  lemma {:induction false} AcceptedIsWellFormed(lib: Library, sections: seq<Section>)
    requires Acceptable(lib, sections) && Valid(lib, Intended(lib, sections))
    ensures var us := Intended(lib, sections).upstreams;
            && multiset(us) == multiset(EnabledUpstreams(lib, sections))
            && WellFormed(Intended(lib, sections))
            && SortStable(us, PriorityLess) == us
  {
    var enabled, cfg := EnabledUpstreams(lib, sections), Intended(lib, sections);
    EnabledAreNamed(lib, sections);
    SortedListShape(enabled, cfg.upstreams);
    ValidIsWellFormed(lib, cfg);
  }
}
