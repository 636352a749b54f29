/** The two-pass line reader of internal/config/config.go: stripComment, trim,
    splitUCI. A line is a sequence of Unicode characters. */
module Uci {

  datatype Quote = Closed | Open(mark: char)

  predicate IsMark(c: char) {
    c == '\'' || c == '\"'
  }

  predicate IsBlank(c: char) {
    c == ' ' || c == '\t'
  }

  /** unicode.IsSpace, which strings.TrimSpace uses. */
  predicate IsSpace(c: char) {
    '\t' <= c <= '\r' || c == ' ' || c == '\U{85}' || c == '\U{A0}' || c == '\U{1680}'
    || '\U{2000}' <= c <= '\U{200A}' || c == '\U{2028}' || c == '\U{2029}' || c == '\U{202F}'
    || c == '\U{205F}' || c == '\U{3000}'
  }

  // ----- First pass: the comment

  function NextQuote(q: Quote, c: char): Quote {
    if q.Closed? && IsMark(c) then Open(c) else if q == Open(c) then Closed else q
  }

  /** Length of the part of the line before the first `#` outside quotes. */
  function CutAt(line: string, q: Quote): (n: nat)
    ensures n <= |line|
  {
    if line == "" || (q.Closed? && line[0] == '#') then 0
    else 1 + CutAt(line[1..], NextQuote(q, line[0]))
  }

  method StripComment(line: string) returns (kept: string)
    ensures kept == line[..CutAt(line, Closed)]
  {
    var quote := Closed;
    for i := 0 to |line|
      invariant CutAt(line, Closed) == i + CutAt(line[i..], quote)
    {
      var r := line[i];
      assert line[i..][1..] == line[i + 1..];
      if quote.Closed? && IsMark(r) {
        quote := Open(r);
      } else if quote == Open(r) {
        quote := Closed;
      } else if quote.Closed? && r == '#' {
        return line[..i];
      }
    }
    return line;
  }

  // ----- Between the passes: strings.TrimSpace

  function TrimLeft(s: string): string {
    if s != "" && IsSpace(s[0]) then TrimLeft(s[1..]) else s
  }

  function TrimRight(s: string): string {
    if s != "" && IsSpace(s[|s| - 1]) then TrimRight(s[..|s| - 1]) else s
  }

  function TrimSpace(s: string): string {
    TrimRight(TrimLeft(s))
  }

  // ----- Second pass: the fields

  datatype Lexer = Lexer(fields: seq<string>, word: string, quote: Quote, escaped: bool) {
    function Flush(): Lexer {
      if word != "" then this.(fields := fields + [word], word := "") else this
    }

    function Feed(r: char): Lexer {
      if escaped then this.(word := word + [r], escaped := false)
      else if r == '\\' && quote != Open('\'') then this.(escaped := true)
      else if quote.Open? then
        if r == quote.mark then this.(quote := Closed) else this.(word := word + [r])
      else if IsMark(r) then this.(quote := Open(r))
      else if IsBlank(r) then Flush()
      else this.(word := word + [r])
    }

    function FeedAll(s: string): Lexer
      decreases |s|
    {
      if s == "" then this else Feed(s[0]).FeedAll(s[1..])
    }

    function Finish(): Reading {
      if escaped || quote.Open? || Flush().fields == [] then Malformed else Fields(Flush().fields)
    }
  }

  /** What one line of the file means to Parse. */
  datatype Reading = Blank | Malformed | Fields(fields: seq<string>)

  const START := Lexer([], "", Closed, false)

  method SplitUci(line: string) returns (r: Reading)
    ensures r == START.FeedAll(line).Finish()
  {
    var fields: seq<string>, b: string, quote, escaped := [], "", Closed, false;
    for i := 0 to |line|
      invariant START.FeedAll(line) == Lexer(fields, b, quote, escaped).FeedAll(line[i..])
    {
      var c := line[i];
      assert line[i..][1..] == line[i + 1..];
      if escaped {
        b, escaped := b + [c], false;
      } else if c == '\\' && quote != Open('\'') {
        escaped := true;
      } else if quote.Open? {
        if quote == Open(c) {
          quote := Closed;
        } else {
          b := b + [c];
        }
      } else if IsMark(c) {
        quote := Open(c);
      } else if IsBlank(c) {
        if |b| > 0 {
          fields, b := fields + [b], "";
        }
      } else {
        b := b + [c];
      }
    }
    if escaped || quote.Open? {
      return Malformed;
    }
    if |b| > 0 {
      fields := fields + [b];
    }
    return if |fields| == 0 then Malformed else Fields(fields);
  }

  function ReadLine(line: string): Reading {
    var t := TrimSpace(line[..CutAt(line, Closed)]);
    if t == "" then Blank else START.FeedAll(t).Finish()
  }

  method Read(line: string) returns (r: Reading)
    ensures r == ReadLine(line)
  {
    var kept := StripComment(line);
    var t := TrimSpace(kept);
    if t == "" {
      return Blank;
    }
    r := SplitUci(t);
  }

  ghost predicate AllBlank(s: string) {
    forall c <- s :: IsBlank(c)
  }

  lemma {:induction false} FeedAppend(l: Lexer, a: string, b: string)
    ensures l.FeedAll(a + b) == l.FeedAll(a).FeedAll(b)
    decreases |a|
  {
    if a == "" {
      assert a + b == b;
    } else {
      assert (a + b)[1..] == a[1..] + b;
      FeedAppend(l.Feed(a[0]), a[1..], b);
    }
  }

  // ----- Printing and reading back

  /** A backslash before every backslash. */
  function DoubleBackslashes(s: string): string {
    if s == "" then ""
    else (if s[0] == '\\' then "\\\\" else [s[0]]) + DoubleBackslashes(s[1..])
  }

  /** A backslash before every character. */
  function EscapeEach(s: string): string {
    if s == "" then "" else ['\\', s[0]] + EscapeEach(s[1..])
  }

  /** A printed field: in quotes of either kind, escaped, or bare when nothing in
      it is special. The first pass knows no escapes, so a quote mark can only be
      printed inside quotes of the other kind. An empty field needs quotes. */
  datatype Token = Quoted(text: string) | Doubled(text: string) | Escaped(text: string) | Bare(text: string) {
    ghost predicate Printable() {
      match this
      case Quoted(_) => '\'' !in text
      case Doubled(_) => '\"' !in text
      case Escaped(_) => text != "" && !IsSpace(text[|text| - 1]) && forall c <- text :: !IsMark(c) && c != '#'
      case Bare(_) =>
        && text != "" && !IsSpace(text[0]) && !IsSpace(text[|text| - 1])
        && forall c <- text :: c != '\'' && c != '\"' && c != '\\' && c != '#' && c != ' ' && c != '\t'
    }

    function Print(): string {
      match this
      case Quoted(t) => "'" + t + "'"
      case Doubled(t) => "\"" + DoubleBackslashes(t) + "\""
      case Escaped(t) => EscapeEach(t)
      case Bare(t) => t
    }
  }

  /** Tokens with the gaps that precede all but the first. */
  function PrintTokens(tokens: seq<Token>, gaps: seq<string>): string
    requires |tokens| == |gaps| + 1
  {
    if gaps == [] then tokens[0].Print()
    else PrintTokens(tokens[..|gaps|], gaps[..|gaps| - 1]) + gaps[|gaps| - 1] + tokens[|gaps|].Print()
  }

  function Texts(tokens: seq<Token>): seq<string> {
    seq(|tokens|, i requires 0 <= i < |tokens| => tokens[i].text)
  }

  function NonEmpty(texts: seq<string>): seq<string> {
    if texts == [] then []
    else
      var init, last := texts[..|texts| - 1], texts[|texts| - 1];
      NonEmpty(init) + if last == "" then [] else [last]
  }

  lemma {:induction false} NonEmptyIdentity(texts: seq<string>)
    ensures |NonEmpty(texts)| <= |texts|
    ensures NonEmpty(texts) == texts <==> forall i | 0 <= i < |texts| :: texts[i] != ""
  {
    if texts != [] {
      var init, last := texts[..|texts| - 1], texts[|texts| - 1];
      NonEmptyIdentity(init);
      assert texts == init + [last];
      if NonEmpty(texts) == texts {
        assert NonEmpty(init) == NonEmpty(texts)[..|init|];
        assert forall i | 0 <= i < |texts| :: if i < |init| then texts[i] == init[i] else texts[i] == last;
      }
    }
  }

  /** `kept` is text the first pass walks over from closed quote to closed quote. */
  ghost predicate Balanced(kept: string) {
    forall rest: string :: CutAt(kept + rest, Closed) == |kept| + CutAt(rest, Closed)
  }

  lemma {:induction false} CutInQuote(mark: char, text: string, rest: string)
    requires IsMark(mark) && mark !in text
    ensures CutAt(text + [mark] + rest, Open(mark)) == |text| + 1 + CutAt(rest, Closed)
  {
    var s := text + [mark] + rest;
    if text == "" {
      assert s[1..] == rest;
    } else {
      assert text[0] in text;
      assert s[1..] == text[1..] + [mark] + rest;
      CutInQuote(mark, text[1..], rest);
    }
  }

  lemma {:induction false} CutOverOrdinary(text: string, rest: string)
    requires forall c <- text :: !IsMark(c) && c != '#'
    ensures CutAt(text + rest, Closed) == |text| + CutAt(rest, Closed)
  {
    if text == "" {
      assert text + rest == rest;
    } else {
      assert text[0] in text;
      assert (text + rest)[1..] == text[1..] + rest;
      CutOverOrdinary(text[1..], rest);
    }
  }

  lemma {:induction false} DoublingAddsNoMark(s: string)
    requires '\"' !in s
    ensures '\"' !in DoubleBackslashes(s)
  {
    if s != "" {
      assert s[0] in s;
      DoublingAddsNoMark(s[1..]);
    }
  }

  lemma {:induction false} EscapingAddsNothing(s: string)
    requires forall c <- s :: !IsMark(c) && c != '#'
    ensures forall c <- EscapeEach(s) :: !IsMark(c) && c != '#'
    ensures var e := EscapeEach(s); s != "" ==> e != "" && e[0] == '\\' && e[|e| - 1] == s[|s| - 1]
  {
    if s != "" {
      assert s[0] in s;
      EscapingAddsNothing(s[1..]);
    }
  }

  lemma QuotedBalanced(mark: char, body: string)
    requires IsMark(mark) && mark !in body
    ensures Balanced([mark] + body + [mark])
  {
    var p := [mark] + body + [mark];
    forall rest: string ensures CutAt(p + rest, Closed) == |p| + CutAt(rest, Closed) {
      CutInQuote(mark, body, rest);
      assert (p + rest)[1..] == body + [mark] + rest;
    }
  }

  lemma OrdinaryBalanced(text: string)
    requires forall c <- text :: !IsMark(c) && c != '#'
    ensures Balanced(text)
  {
    forall rest: string ensures CutAt(text + rest, Closed) == |text| + CutAt(rest, Closed) {
      CutOverOrdinary(text, rest);
    }
  }

  lemma TokenBalanced(t: Token)
    requires t.Printable()
    ensures Balanced(t.Print())
  {
    match t {
      case Quoted(text) => QuotedBalanced('\'', text);
      case Doubled(text) =>
        DoublingAddsNoMark(text);
        QuotedBalanced('\"', DoubleBackslashes(text));
      case Escaped(text) =>
        EscapingAddsNothing(text);
        OrdinaryBalanced(EscapeEach(text));
      case Bare(text) => OrdinaryBalanced(text);
    }
  }

  lemma BlanksBalanced(s: string)
    requires AllBlank(s)
    ensures Balanced(s)
  {
    OrdinaryBalanced(s);
  }

  lemma BalancedAppend(a: string, b: string)
    requires Balanced(a) && Balanced(b)
    ensures Balanced(a + b)
  {
    forall rest: string ensures CutAt(a + b + rest, Closed) == |a + b| + CutAt(rest, Closed) {
      assert a + b + rest == a + (b + rest);
    }
  }

  lemma {:induction false} FeedInQuote(l: Lexer, text: string)
    requires l.quote == Open('\'') && !l.escaped && '\'' !in text
    ensures l.FeedAll(text) == l.(word := l.word + text)
    decreases |text|
  {
    if text != "" {
      assert text[0] in text;
      FeedInQuote(l.Feed(text[0]), text[1..]);
      assert l.word + [text[0]] + text[1..] == l.word + text;
    } else {
      assert l.word + text == l.word;
    }
  }

  lemma {:induction false} FeedBare(l: Lexer, text: string)
    requires l.quote.Closed? && !l.escaped && forall c <- text :: !IsMark(c) && c != '\\' && !IsBlank(c)
    ensures l.FeedAll(text) == l.(word := l.word + text)
    decreases |text|
  {
    if text != "" {
      assert text[0] in text;
      FeedBare(l.Feed(text[0]), text[1..]);
      assert l.word + [text[0]] + text[1..] == l.word + text;
    } else {
      assert l.word + text == l.word;
    }
  }

  lemma FeedTwo(l: Lexer, a: char, b: char)
    ensures l.FeedAll([a, b]) == l.Feed(a).Feed(b)
  {
    assert [a, b][1..] == [b] && [b][1..] == "";
    assert l.Feed(a).FeedAll([b]) == l.Feed(a).Feed(b);
  }

  lemma {:induction false} FeedInDouble(l: Lexer, text: string)
    requires l.quote == Open('\"') && !l.escaped && '\"' !in text
    ensures l.FeedAll(DoubleBackslashes(text)) == l.(word := l.word + text)
    decreases |text|
  {
    if text != "" {
      assert text[0] in text;
      var head := if text[0] == '\\' then "\\\\" else [text[0]];
      FeedAppend(l, head, DoubleBackslashes(text[1..]));
      if text[0] == '\\' {
        FeedTwo(l, '\\', '\\');
      } else {
        assert head[1..] == "";
      }
      assert l.FeedAll(head) == l.(word := l.word + [text[0]]);
      FeedInDouble(l.(word := l.word + [text[0]]), text[1..]);
      assert l.word + [text[0]] + text[1..] == l.word + text;
    } else {
      assert l.word + text == l.word;
    }
  }

  lemma {:induction false} FeedEscaped(l: Lexer, text: string)
    requires l.quote.Closed? && !l.escaped
    ensures l.FeedAll(EscapeEach(text)) == l.(word := l.word + text)
    decreases |text|
  {
    if text != "" {
      var head := ['\\', text[0]];
      FeedAppend(l, head, EscapeEach(text[1..]));
      FeedTwo(l, '\\', text[0]);
      assert l.FeedAll(head) == l.(word := l.word + [text[0]]);
      FeedEscaped(l.(word := l.word + [text[0]]), text[1..]);
      assert l.word + [text[0]] + text[1..] == l.word + text;
    } else {
      assert l.word + text == l.word;
    }
  }

  lemma FeedQuotes(l: Lexer, mark: char, body: string, text: string)
    requires IsMark(mark) && l.quote.Closed? && !l.escaped && l.word == ""
    requires l.(quote := Open(mark)).FeedAll(body) == l.(quote := Open(mark), word := text)
    ensures l.FeedAll([mark] + body + [mark]) == l.(word := text)
  {
    var p := [mark] + body + [mark];
    FeedAppend(l.Feed(mark), body, [mark]);
    assert p[1..] == body + [mark];
    assert [mark][1..] == "";
  }

  lemma FeedToken(l: Lexer, t: Token)
    requires t.Printable() && l.quote.Closed? && !l.escaped && l.word == ""
    ensures l.FeedAll(t.Print()) == l.(word := t.text)
  {
    assert l.word + t.text == t.text;
    match t {
      case Quoted(text) =>
        FeedInQuote(l.(quote := Open('\'')), text);
        FeedQuotes(l, '\'', text, text);
      case Doubled(text) =>
        FeedInDouble(l.(quote := Open('\"')), text);
        FeedQuotes(l, '\"', DoubleBackslashes(text), text);
      case Escaped(text) => FeedEscaped(l, text);
      case Bare(text) => FeedBare(l, text);
    }
  }

  lemma {:induction false} FeedBlanks(l: Lexer, s: string)
    requires AllBlank(s) && s != "" && l.quote.Closed? && !l.escaped
    ensures l.FeedAll(s) == l.Flush()
    decreases |s|
  {
    assert s[0] in s;
    if |s| > 1 {
      FeedBlanks(l.Feed(s[0]), s[1..]);
    }
  }

  ghost predicate WellSpaced(tokens: seq<Token>, gaps: seq<string>) {
    && |tokens| == |gaps| + 1
    && (forall i | 0 <= i < |tokens| :: tokens[i].Printable())
    && (forall i | 0 <= i < |gaps| :: gaps[i] != "" && AllBlank(gaps[i]))
  }

  lemma {:induction false} PrintedBalanced(tokens: seq<Token>, gaps: seq<string>)
    requires WellSpaced(tokens, gaps)
    ensures Balanced(PrintTokens(tokens, gaps))
    decreases |gaps|
  {
    var n := |gaps|;
    TokenBalanced(tokens[n]);
    if n > 0 {
      var q, gap := PrintTokens(tokens[..n], gaps[..n - 1]), gaps[n - 1];
      PrintedBalanced(tokens[..n], gaps[..n - 1]);
      BlanksBalanced(gap);
      BalancedAppend(q, gap);
      BalancedAppend(q + gap, tokens[n].Print());
    }
  }

  /** No white space at either end, so the trim stops there. */
  ghost predicate Tight(s: string) {
    s != "" && !IsSpace(s[0]) && !IsSpace(s[|s| - 1])
  }

  lemma TightAround(a: string, gap: string, b: string)
    requires Tight(a) && Tight(b)
    ensures Tight(a + gap + b)
  {
    var s := a + gap + b;
    assert s[0] == a[0] && s[|s| - 1] == b[|b| - 1];
  }

  lemma {:induction false} PrintedTight(tokens: seq<Token>, gaps: seq<string>)
    requires WellSpaced(tokens, gaps)
    ensures Tight(PrintTokens(tokens, gaps))
    decreases |gaps|
  {
    var n := |gaps|;
    TokenTight(tokens[n]);
    if n > 0 {
      PrintedTight(tokens[..n], gaps[..n - 1]);
      TightAround(PrintTokens(tokens[..n], gaps[..n - 1]), gaps[n - 1], tokens[n].Print());
    }
  }

  lemma FeedGapAndToken(l: Lexer, q: string, gap: string, t: Token)
    requires gap != "" && AllBlank(gap) && t.Printable()
    requires l.quote.Closed? && !l.escaped && START.FeedAll(q) == l
    ensures START.FeedAll(q + gap + t.Print()) == l.Flush().(word := t.text)
  {
    FeedAppend(START, q + gap, t.Print());
    FeedAppend(START, q, gap);
    FeedBlanks(l, gap);
    FeedToken(l.Flush(), t);
  }

  lemma NonEmptySnoc(texts: seq<string>, n: nat)
    requires n < |texts|
    ensures NonEmpty(texts[..n + 1]) == NonEmpty(texts[..n]) + if texts[n] == "" then [] else [texts[n]]
  {
    assert texts[..n + 1][..n] == texts[..n];
  }

  /** Printed tokens leave the lexer with the earlier texts read and the last
      one in its buffer. */
  lemma {:induction false} PrintedTokens(tokens: seq<Token>, gaps: seq<string>)
    requires WellSpaced(tokens, gaps)
    ensures START.FeedAll(PrintTokens(tokens, gaps))
         == Lexer(NonEmpty(Texts(tokens)[..|gaps|]), tokens[|gaps|].text, Closed, false)
    decreases |gaps|
  {
    var n, texts := |gaps|, Texts(tokens);
    if n == 0 {
      FeedToken(START, tokens[0]);
    } else {
      PrintedTokens(tokens[..n], gaps[..n - 1]);
      assert Texts(tokens[..n])[..n - 1] == texts[..n - 1];
      var l := Lexer(NonEmpty(texts[..n - 1]), texts[n - 1], Closed, false);
      FeedGapAndToken(l, PrintTokens(tokens[..n], gaps[..n - 1]), gaps[n - 1], tokens[n]);
      NonEmptySnoc(texts, n - 1);
      assert l.Flush() == Lexer(NonEmpty(texts[..n]), "", Closed, false);
    }
  }

  lemma TokenTight(t: Token)
    requires t.Printable()
    ensures Tight(t.Print())
  {
    if t.Bare? {
      assert t.text[0] in t.text && t.text[|t.text| - 1] in t.text;
    } else if t.Escaped? {
      EscapingAddsNothing(t.text);
    }
  }

  lemma {:induction false} TrimLeftBlanks(indent: string, core: string)
    requires AllBlank(indent) && core != "" && !IsSpace(core[0])
    ensures TrimLeft(indent + core) == core
  {
    if indent == "" {
      assert indent + core == core;
    } else {
      assert indent[0] in indent;
      assert (indent + core)[1..] == indent[1..] + core;
      TrimLeftBlanks(indent[1..], core);
    }
  }

  lemma {:induction false} TrimRightBlanks(core: string, tail: string)
    requires AllBlank(tail) && core != "" && !IsSpace(core[|core| - 1])
    ensures TrimRight(core + tail) == core
    decreases |tail|
  {
    if tail == "" {
      assert core + tail == core;
    } else {
      assert tail[|tail| - 1] in tail;
      assert (core + tail)[..|core + tail| - 1] == core + tail[..|tail| - 1];
      TrimRightBlanks(core, tail[..|tail| - 1]);
    }
  }

  lemma KeptOfPrinted(kept: string, comment: string)
    requires Balanced(kept) && (comment != "" ==> comment[0] == '#')
    ensures CutAt(kept + comment, Closed) == |kept|
  {
  }

  lemma TrimPrinted(indent: string, core: string, tail: string)
    requires AllBlank(indent) && AllBlank(tail)
    requires Tight(core)
    ensures TrimSpace(indent + core + tail) == core
  {
    assert indent + core + tail == indent + (core + tail);
    TrimLeftBlanks(indent, core + tail);
    TrimRightBlanks(core, tail);
  }

  lemma PrintedLineKept(indent: string, core: string, tail: string, comment: string)
    requires AllBlank(indent) && AllBlank(tail) && Balanced(core) && Tight(core)
    requires comment != "" ==> comment[0] == '#'
    ensures ReadLine(indent + core + tail + comment) == START.FeedAll(core).Finish()
  {
    var kept := indent + core + tail;
    BlanksBalanced(indent);
    BlanksBalanced(tail);
    BalancedAppend(indent, core);
    BalancedAppend(indent + core, tail);
    KeptOfPrinted(kept, comment);
    assert (kept + comment)[..|kept|] == kept;
    TrimPrinted(indent, core, tail);
  }

  /** Round trip: any indentation, any printable tokens, any gaps, trailing
      blanks and any comment read back as exactly the non-empty texts; so the
      line reads back as printed if and only if no field is empty. */
  lemma PrintedLineReadsBack(indent: string, tokens: seq<Token>, gaps: seq<string>, tail: string, comment: string)
    requires AllBlank(indent) && WellSpaced(tokens, gaps) && AllBlank(tail)
    requires comment != "" ==> comment[0] == '#'
    ensures var r := ReadLine(indent + PrintTokens(tokens, gaps) + tail + comment);
            var texts := Texts(tokens);
            && r == (if NonEmpty(texts) == [] then Malformed else Fields(NonEmpty(texts)))
            && (r == Fields(texts) <==> forall i | 0 <= i < |texts| :: texts[i] != "")
  {
    var texts := Texts(tokens);
    PrintedBalanced(tokens, gaps);
    PrintedTight(tokens, gaps);
    PrintedLineKept(indent, PrintTokens(tokens, gaps), tail, comment);
    PrintedTokens(tokens, gaps);
    NonEmptySnoc(texts, |gaps|);
    assert texts[..|texts|] == texts;
    NonEmptyIdentity(texts);
  }
}
