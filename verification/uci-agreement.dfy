/** When the two passes of the line reader are one lexer. */
module UciAgreement {
  import opened Uci

  /** One pass over the raw line that stops at the first unquoted `#`. */
  function Fused(line: string, l: Lexer, blank: bool): Reading
    decreases |line|
  {
    if line == "" || (l.quote.Closed? && line[0] == '#') then (if blank then Blank else l.Finish())
    else Fused(line[1..], l.Feed(line[0]), blank && IsBlank(line[0]))
  }

  function OneLexer(line: string): Reading {
    Fused(line, START, true)
  }

  /** Where that pass stops. */
  function StopAt(line: string, l: Lexer): (n: nat)
    ensures n <= |line|
    decreases |line|
  {
    if line == "" || (l.quote.Closed? && line[0] == '#') then 0
    else 1 + StopAt(line[1..], l.Feed(line[0]))
  }

  /** What the first pass keeps. */
  function KeptPart(line: string): string {
    line[..CutAt(line, Closed)]
  }

  ghost predicate OnlyBlanks(s: string) {
    forall c <- s :: IsSpace(c) ==> IsBlank(c)
  }

  // ----- The one lexer reads the text before its stop

  lemma AllBlankCons(c: char, s: string)
    ensures AllBlank([c] + s) <==> IsBlank(c) && AllBlank(s)
  {
    assert c in [c] + s && forall d <- s :: d in [c] + s;
  }

  lemma {:induction false} FusedStops(line: string, l: Lexer, blank: bool)
    ensures var s := line[..StopAt(line, l)];
            Fused(line, l, blank) == if blank && AllBlank(s) then Blank else l.FeedAll(s).Finish()
    decreases |line|
  {
    var n := StopAt(line, l);
    if n > 0 {
      var c, rest := line[0], line[1..];
      FusedStops(rest, l.Feed(c), blank && IsBlank(c));
      assert line[..n] == [c] + rest[..n - 1];
      AllBlankCons(c, rest[..n - 1]);
    }
  }

  /** It stops at a `#` outside quotes, and passes every earlier one inside. */
  lemma {:induction false} StopIsFirst(line: string, l: Lexer, i: nat)
    requires i <= StopAt(line, l) && i < |line|
    ensures var q := l.FeedAll(line[..i]).quote;
            if i < StopAt(line, l) then line[i] == '#' ==> q.Open? else line[i] == '#' && q.Closed?
    decreases i
  {
    if i > 0 {
      StopIsFirst(line[1..], l.Feed(line[0]), i - 1);
      assert line[..i][1..] == line[1..][..i - 1];
    }
  }

  lemma {:induction false} CutIsHash(line: string, q: Quote)
    ensures CutAt(line, q) < |line| ==> line[CutAt(line, q)] == '#'
  {
    if CutAt(line, q) > 0 {
      CutIsHash(line[1..], NextQuote(q, line[0]));
    }
  }

  // ----- The trim between the passes

  lemma {:induction false} TrimLeftKeeps(s: string)
    requires OnlyBlanks(s)
    ensures START.FeedAll(TrimLeft(s)) == START.FeedAll(s)
    ensures TrimLeft(s) == "" <==> AllBlank(s)
    ensures OnlyBlanks(TrimLeft(s)) && (TrimLeft(s) != "" ==> !IsSpace(TrimLeft(s)[0]))
  {
    if s != "" {
      assert s[0] in s;
      if IsSpace(s[0]) {
        assert forall c <- s[1..] :: c in s;
        TrimLeftKeeps(s[1..]);
        AllBlankCons(s[0], s[1..]);
        assert s == [s[0]] + s[1..];
      }
    }
  }

  /** What the right trim takes away. */
  lemma {:induction false} TrimRightSplits(s: string) returns (tail: string)
    requires OnlyBlanks(s)
    ensures s == TrimRight(s) + tail && AllBlank(tail)
    ensures s != "" && !IsSpace(s[0]) ==> TrimRight(s) != ""
  {
    if s != "" && IsSpace(s[|s| - 1]) {
      var init, c := s[..|s| - 1], s[|s| - 1];
      assert c in s && forall d <- init :: d in s;
      var rest := TrimRightSplits(init);
      tail := rest + [c];
      assert s == init + [c];
    } else {
      tail := "";
    }
  }

  ghost predicate Marked(l: Lexer) {
    l.quote.Open? ==> IsMark(l.quote.mark)
  }

  lemma {:induction false} StaysMarked(l: Lexer, s: string)
    requires Marked(l)
    ensures Marked(l.FeedAll(s))
    decreases |s|
  {
    if s != "" {
      StaysMarked(l.Feed(s[0]), s[1..]);
    }
  }

  /** Blanks outside an escape change neither the quote nor the result. */
  lemma {:induction false} BlanksChangeNothing(l: Lexer, s: string)
    requires AllBlank(s) && !l.escaped && Marked(l)
    ensures l.FeedAll(s).Finish() == l.Finish() && l.FeedAll(s).quote == l.quote
    decreases |s|
  {
    if s != "" {
      assert s[0] in s && forall c <- s[1..] :: c in s;
      BlanksChangeNothing(l.Feed(s[0]), s[1..]);
    }
  }

  /** A blank in an escape is text. */
  lemma BlanksAfterEscape(l: Lexer, s: string)
    requires AllBlank(s) && s != "" && l.escaped && Marked(l)
    ensures l.FeedAll(s).Finish().Malformed? <==> l.quote.Open?
    ensures l.FeedAll(s).quote == l.quote
  {
    assert s[0] in s && forall c <- s[1..] :: c in s;
    BlanksChangeNothing(l.Feed(s[0]), s[1..]);
  }

  /** The trim takes the character off an escape outside quotes. */
  ghost predicate TrimsEscape(s: string) {
    var l := START.FeedAll(TrimSpace(s));
    l.escaped && l.quote.Closed? && |TrimSpace(s)| < |TrimLeft(s)|
  }

  lemma TrimMeaning(s: string)
    requires OnlyBlanks(s)
    ensures START.FeedAll(TrimSpace(s)).quote == START.FeedAll(s).quote
    ensures START.FeedAll(TrimSpace(s)).Finish() == START.FeedAll(s).Finish() <==> !TrimsEscape(s)
    ensures TrimSpace(s) == "" <==> AllBlank(s)
  {
    TrimLeftKeeps(s);
    var left := TrimLeft(s);
    var tail := TrimRightSplits(left);
    var l := START.FeedAll(TrimRight(left));
    FeedAppend(START, TrimRight(left), tail);
    StaysMarked(START, TrimRight(left));
    if tail == "" {
      assert TrimRight(left) + tail == TrimRight(left);
    } else if l.escaped {
      BlanksAfterEscape(l, tail);
    } else {
      BlanksChangeNothing(l, tail);
    }
  }

  // ----- The same cut

  lemma SameCut(line: string)
    requires OnlyBlanks(KeptPart(line)) && StopAt(line, START) == CutAt(line, Closed)
    ensures ReadLine(line) == OneLexer(line) <==> !TrimsEscape(KeptPart(line))
  {
    FusedStops(line, START, true);
    TrimMeaning(KeptPart(line));
  }

  // ----- Different cuts

  lemma BlanksKeepStart(s: string)
    requires AllBlank(s)
    ensures START.FeedAll(s) == START
  {
    if s != "" {
      FeedBlanks(START, s);
    }
  }

  /** The first pass stops first: the fields end inside quotes. */
  lemma EarlyCutIsMalformed(line: string)
    requires OnlyBlanks(KeptPart(line)) && CutAt(line, Closed) < StopAt(line, START)
    ensures ReadLine(line) == Malformed
  {
    var kept := KeptPart(line);
    CutIsHash(line, Closed);
    StopIsFirst(line, START, |kept|);
    TrimMeaning(kept);
    assert !AllBlank(kept) by {
      if AllBlank(kept) {
        BlanksKeepStart(kept);
      }
    }
  }

  function Total(fields: seq<string>): nat {
    if fields == [] then 0 else Total(fields[..|fields| - 1]) + |fields[|fields| - 1]|
  }

  /** The characters a lexer has taken as text. */
  function Size(l: Lexer): nat {
    Total(l.fields) + |l.word|
  }

  lemma FlushKeepsSize(l: Lexer)
    ensures Size(l.Flush()) == Size(l)
  {
    if l.word != "" {
      assert (l.fields + [l.word])[..|l.fields|] == l.fields;
    }
  }

  lemma {:induction false} SizeGrows(l: Lexer, s: string)
    ensures Size(l.FeedAll(s)) >= Size(l)
    decreases |s|
  {
    if s != "" {
      FlushKeepsSize(l);
      SizeGrows(l.Feed(s[0]), s[1..]);
    }
  }

  lemma FinishedSize(l: Lexer)
    ensures l.Finish().Fields? ==> Total(l.Finish().fields) == Size(l)
  {
    FlushKeepsSize(l);
  }

  lemma HashIsText(l: Lexer)
    requires l.quote.Closed? && !l.escaped
    ensures Size(l.Feed('#')) == Size(l) + 1
  {
  }

  /** A lexer that goes on past an unquoted `#` does not end in the same fields. */
  lemma HashAdds(l: Lexer, rest: string)
    requires l.quote.Closed?
    ensures l.Feed('#').FeedAll(rest).Finish() == l.Finish() ==> l.Finish().Malformed?
  {
    if l.Finish().Fields? {
      HashIsText(l);
      SizeGrows(l.Feed('#'), rest);
      FinishedSize(l);
      FinishedSize(l.Feed('#').FeedAll(rest));
    }
  }

  lemma {:induction false} TrimLeftAppend(a: string, b: string)
    requires b != "" && !IsSpace(b[0])
    ensures TrimLeft(a + b) == TrimLeft(a) + b
  {
    if a == "" {
      assert a + b == b;
    } else {
      assert (a + b)[1..] == a[1..] + b;
      TrimLeftAppend(a[1..], b);
    }
  }

  lemma {:induction false} TrimRightAppend(a: string, b: string)
    requires b != "" && !IsSpace(b[0])
    ensures TrimRight(a + b) == a + TrimRight(b) && TrimRight(b) != "" && TrimRight(b)[0] == b[0]
    decreases |b|
  {
    var s := a + b;
    if IsSpace(b[|b| - 1]) {
      assert s[..|s| - 1] == a + b[..|b| - 1];
      TrimRightAppend(a, b[..|b| - 1]);
    }
  }

  /** The first pass stops later: a `#` that ends the line for one lexer is text. */
  lemma LateCutDiffers(line: string)
    requires OnlyBlanks(KeptPart(line)) && StopAt(line, START) < CutAt(line, Closed)
    ensures ReadLine(line) == OneLexer(line) ==> OneLexer(line) == Malformed
  {
    var p, kept := StopAt(line, START), KeptPart(line);
    var a, b := line[..p], kept[p..];
    StopIsFirst(line, START, p);
    assert kept == a + b && b[0] == '#';
    FusedStops(line, START, true);
    NotOnlyBlanksBefore(line, p);
    TrimLeftAppend(a, b);
    TrimRightAppend(TrimLeft(a), b);
    assert forall c <- a :: c in kept;
    TrimLeftKeeps(a);
    var t := TrimRight(b);
    FeedAppend(START, TrimLeft(a), t);
    assert START.FeedAll(a).FeedAll(t) == START.FeedAll(a).Feed('#').FeedAll(t[1..]);
    HashAdds(START.FeedAll(a), t[1..]);
  }

  lemma NotOnlyBlanksBefore(line: string, p: nat)
    requires p < CutAt(line, Closed) && line[p] == '#'
    ensures !AllBlank(line[..p])
  {
    assert line == line[..p] + line[p..];
    if AllBlank(line[..p]) {
      CutOverOrdinary(line[..p], line[p..]);
    }
  }

  // ----- The theorems

  /** Lexer agreement, exactly, for every line whose kept part has no white space
      but blank and tab: with the same cut the two passes are one lexer if and only
      if the trim takes no escaped blank away; with different cuts they agree only
      in rejecting the line. */
  lemma PassesAreOneLexer(line: string)
    requires OnlyBlanks(KeptPart(line))
    ensures ReadLine(line) == OneLexer(line) <==>
            if StopAt(line, START) == CutAt(line, Closed) then !TrimsEscape(KeptPart(line))
            else ReadLine(line) == OneLexer(line) == Malformed
    ensures CutAt(line, Closed) < StopAt(line, START) ==> ReadLine(line) == Malformed
  {
    if StopAt(line, START) == CutAt(line, Closed) {
      SameCut(line);
    } else if StopAt(line, START) < CutAt(line, Closed) {
      LateCutDiffers(line);
    } else {
      EarlyCutIsMalformed(line);
    }
  }

  /** The quote state of the first pass after some text. */
  function QuoteAfter(q: Quote, s: string): Quote {
    if s == "" then q else NextQuote(QuoteAfter(q, s[..|s| - 1]), s[|s| - 1])
  }

  /** The first pass takes no notice of the character at i if it is escaped. */
  ghost predicate EscapeUnnoticed(s: string, i: nat)
    requires i < |s|
  {
    var l := START.FeedAll(s[..i]);
    l.escaped ==> NextQuote(l.quote, s[i]) == l.quote
  }

  lemma FeedQuote(l: Lexer, c: char)
    requires Marked(l)
    ensures l.Feed(c).quote == if l.escaped then l.quote else NextQuote(l.quote, c)
  {
  }

  ghost predicate SameQuote(s: string, i: nat)
    requires i <= |s|
  {
    QuoteAfter(Closed, s[..i]) == START.FeedAll(s[..i]).quote
  }

  lemma QuoteStep(s: string, i: nat)
    requires i < |s| && SameQuote(s, i)
    ensures SameQuote(s, i + 1) <==> EscapeUnnoticed(s, i)
  {
    assert s[..i + 1][..i] == s[..i] && s[..i + 1] == s[..i] + [s[i]];
    FeedAppend(START, s[..i], [s[i]]);
    StaysMarked(START, s[..i]);
    FeedQuote(START.FeedAll(s[..i]), s[i]);
    assert [s[i]][1..] == "";
  }

  /** The quote states of the two passes agree at every prefix of a text if and only
      if no escaped character is a quote mark that the first pass reacts to. */
  lemma {:induction false} QuotesAgreeExactly(s: string, n: nat)
    requires n <= |s|
    ensures (forall i: nat | i <= n :: SameQuote(s, i)) <==> (forall i: nat | i < n :: EscapeUnnoticed(s, i))
  {
    if n > 0 {
      QuotesAgreeExactly(s, n - 1);
      if SameQuote(s, n - 1) {
        QuoteStep(s, n - 1);
      }
      assert (forall i: nat | i < n :: EscapeUnnoticed(s, i)) <==>
             (forall i: nat | i < n - 1 :: EscapeUnnoticed(s, i)) && EscapeUnnoticed(s, n - 1);
      assert (forall i: nat | i <= n :: SameQuote(s, i)) <==>
             (forall i: nat | i <= n - 1 :: SameQuote(s, i)) && SameQuote(s, n);
    }
  }

  lemma {:induction false} QuoteAfterCons(q: Quote, s: string)
    requires s != ""
    ensures QuoteAfter(q, s) == QuoteAfter(NextQuote(q, s[0]), s[1..])
  {
    var n := |s| - 1;
    if n > 0 {
      QuoteAfterCons(q, s[..n]);
      assert s[..n][1..] == s[1..][..n - 1];
    }
  }

  /** The first pass stops at a `#` outside its quotes, and passes earlier ones inside. */
  lemma {:induction false} CutIsFirst(line: string, q: Quote, i: nat)
    requires i <= CutAt(line, q) && i < |line|
    ensures var r := QuoteAfter(q, line[..i]);
            if i < CutAt(line, q) then line[i] == '#' ==> r.Open? else line[i] == '#' && r.Closed?
    decreases i
  {
    if i > 0 {
      CutIsFirst(line[1..], NextQuote(q, line[0]), i - 1);
      assert line[..i][1..] == line[1..][..i - 1];
      QuoteAfterCons(q, line[..i]);
    }
  }

  lemma SameQuotesSameCut(line: string)
    requires forall i: nat | i <= CutAt(line, Closed) :: SameQuote(line, i)
    ensures StopAt(line, START) == CutAt(line, Closed)
  {
    var p, n := StopAt(line, START), CutAt(line, Closed);
    if p < n {
      assert SameQuote(line, p);
      StopIsFirst(line, START, p);
      CutIsFirst(line, Closed, p);
    } else if n < p {
      assert SameQuote(line, n);
      StopIsFirst(line, START, n);
      CutIsFirst(line, Closed, n);
    }
  }

  /** So where no escaped character is a quote mark that the first pass reacts to,
      only an escaped blank at the end of the kept part can come between them. */
  lemma UnnoticedEscapesAgree(line: string)
    requires OnlyBlanks(KeptPart(line))
    requires forall i: nat | i < CutAt(line, Closed) :: EscapeUnnoticed(line, i)
    ensures ReadLine(line) == OneLexer(line) <==> !TrimsEscape(KeptPart(line))
  {
    QuotesAgreeExactly(line, CutAt(line, Closed));
    SameQuotesSameCut(line);
    SameCut(line);
  }

  ghost predicate Plain(line: string) {
    '\\' !in line && OnlyBlanks(line)
  }

  lemma {:induction false} NeverEscaped(l: Lexer, s: string)
    requires !l.escaped && '\\' !in s
    ensures !l.FeedAll(s).escaped
    decreases |s|
  {
    if s != "" {
      assert s[0] in s && forall c <- s[1..] :: c in s;
      NeverEscaped(l.Feed(s[0]), s[1..]);
    }
  }

  lemma {:induction false} TrimmedIsPart(s: string)
    ensures forall c <- TrimLeft(s) :: c in s
    ensures forall c <- TrimRight(s) :: c in s
  {
    if s != "" {
      TrimmedIsPart(s[1..]);
      TrimmedIsPart(s[..|s| - 1]);
    }
  }

  /** On a line without a backslash nothing can: the passes are one lexer. */
  lemma PlainLinesAgree(line: string)
    requires Plain(line)
    ensures ReadLine(line) == OneLexer(line)
  {
    var kept := KeptPart(line);
    assert forall c <- kept :: c in line;
    forall i: nat | i < |kept| ensures EscapeUnnoticed(line, i) {
      assert forall c <- line[..i] :: c in line;
      NeverEscaped(START, line[..i]);
    }
    UnnoticedEscapesAgree(line);
    TrimmedIsPart(kept);
    TrimmedIsPart(TrimLeft(kept));
    NeverEscaped(START, TrimSpace(kept));
  }

  /** With an escaped quote mark they can differ: the first pass takes it for a real
      one and so keeps a comment that one lexer would drop. */
  lemma BackslashSeparatesThePasses()
    ensures ReadLine("a\\'#'") == Malformed
    ensures OneLexer("a\\'#'") == Fields(["a'"])
  {
    var s := "a\\'#'";
    assert s[1..] == "\\'#'";
    assert s[1..][1..] == "'#'";
    assert s[1..][1..][1..] == "#'";
    assert s[1..][1..][1..][1..] == "'";
    assert CutAt(s, Closed) == 5;
    assert s[..5] == s;
    assert TrimSpace(s) == s;
    var l1 := START.Feed('a');
    var l2 := l1.Feed('\\');
    var l3 := l2.Feed('\'');
    assert l3 == Lexer([], "a'", Closed, false);
    assert Fused(s, START, true) == Fused(s[1..], l1, false) == Fused(s[1..][1..], l2, false)
        == Fused(s[1..][1..][1..], l3, false) == l3.Finish();
  }

  /** So can an escaped blank at the end: the trim takes it away. */
  lemma EscapedBlankSeparatesThePasses()
    ensures ReadLine("a\\ ") == Malformed
    ensures OneLexer("a\\ ") == Fields(["a "])
  {
    var s := "a\\ ";
    assert s[1..] == "\\ ";
    assert s[1..][1..] == " ";
    assert s[1..][1..][1..] == "";
    assert CutAt(s, Closed) == 3;
    assert s[..3] == s && s[..2] == "a\\" && "a\\"[1..] == "\\" && "\\"[1..] == "";
    assert TrimSpace(s) == "a\\";
    var l2 := START.Feed('a').Feed('\\');
    assert START.FeedAll("a\\") == l2;
    assert l2.Feed(' ') == Lexer([], "a ", Closed, false);
    assert Fused(s, START, true) == Fused(s[1..], START.Feed('a'), false) == Fused(s[1..][1..], l2, false)
        == Fused(s[1..][1..][1..], l2.Feed(' '), false) == l2.Feed(' ').Finish();
  }
}
