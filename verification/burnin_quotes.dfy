/** What becomes of the burn-in when a published text contains a quote. */
module BurninQuotes {
  import opened Bytes
  import opened Arithmetic
  import opened Trimming
  import opened Scheduler
  import opened StatFile
  import opened StatQuotes
  import opened Statistics
  import opened Burnin
  import opened BurninInvariant

  // ---- reading a published file in ----

  /** However reading the published file in turns out, failid has the total. */
  ghost predicate IsSureToFind(n: Snapshot) {
    forall r :: MayLoad(Some(FileOf(n.Entries())), r) ==> r == Loaded(Some(n.total))
  }

  /** failid is sure to find the total if and only if the file can be read to its end, whatever its texts are. At a
      quote that is never closed it may fail instead. */
  lemma TotalFoundIff(n: Snapshot)
    ensures n.Loads() <==> IsSureToFind(n)
    ensures Source(FileOf(n.Entries())).Unterminated? ==> MayLoad(Some(FileOf(n.Entries())), Done(2))
  {
    hide Source, FileOf, TotalIn, EntriesOf;
    if n.Loads() {
      forall r | MayLoad(Some(FileOf(n.Entries())), r)
        ensures r == Loaded(Some(n.total))
      {
        SureToLoad(n, r);
      }
    } else {
      assert MayLoad(Some(FileOf(n.Entries())), Done(2));
    }
  }

  /** As far as the texts decide: with harmless text inside of quotes, and plain text without blanks outside, failid is
      sure to find the total if and only if the number of quotes is even. */
  lemma EvenTextsFound(n: Snapshot)
    requires IsHeader(n.header) && TextsFit(n.header, n.scripts, false)
    ensures QuotesOfTexts(n.header, n.scripts) % 2 == 0 <==> IsSureToFind(n)
  {
    hide Source, FileOf, TotalIn, EntriesOf, QuotesOfTexts, TextsFit, IsHeader, IsSureToFind;
    EvenTextsIff(n.header, n.scripts, n.total);
    TotalFoundIff(n);
  }

  /** One stray quote, with harmless text in front of it and plain text behind it: failid fails, or goes on without any
      total, whatever the total is. */
  lemma StrayQuoteLoads(n: Snapshot, r: Phase)
    requires IsHeader(n.header) && TextsFit(n.header, n.scripts, true) && QuotesOfTexts(n.header, n.scripts) == 1
    ensures MayLoad(Some(FileOf(n.Entries())), r) <==> r == Done(2) || r == Loaded(None)
  {
    hide Source, FileOf, TotalIn, EntriesOf, QuotesOfTexts, TextsFit, Fits, IsHeader;
    KeysOfEntries(n.header, n.scripts, n.total);
    EntriesFitIff(n.header, n.scripts, n.total, true);
    QuotesOfEntries(n.header, n.scripts, n.total);
    var k := StrayQuote(n.Entries());
    TotalReadsBack(n.header, n.scripts, n.total);
  }

  // ---- a collection that nothing interrupts ----

  /** The steps of dump_stats that read the counters from script i on. */
  function ReadSteps(count: nat, i: nat): seq<Step>
    decreases count - i
  {
    if i >= count then [] else [ReadScript, AddFail] + ReadSteps(count, i + 1)
  }

  lemma {:induction false} ReadsFrom(s: State, i: nat)
    requires i <= |s.scripts| && s.collector.Collecting? && s.collector.added == i
    requires s.collector.scripts == s.scripts[..i] && s.collector.total == Sum(FailsOf(s.scripts)[..i])
    ensures var es := ReadSteps(|s.scripts|, i);
      && IsRun(s, es)
      && After(s, es) == s.(collector := s.collector.(
           scripts := s.scripts, added := |s.scripts|, total := Sum(FailsOf(s.scripts))))
    decreases |s.scripts| - i
  {
    hide Sum;
    var es := ReadSteps(|s.scripts|, i);
    if i == |s.scripts| {
      assert s.scripts[..i] == s.scripts && FailsOf(s.scripts)[..i] == FailsOf(s.scripts);
    } else {
      SumAdd(FailsOf(s.scripts), i);
      var s1 := Apply(s, ReadScript);
      var s2 := Apply(s1, AddFail);
      assert s.scripts[..i + 1] == s.scripts[..i] + [s.scripts[i]];
      assert es[1..] == [AddFail] + ReadSteps(|s.scripts|, i + 1) && es[1..][1..] == ReadSteps(|s.scripts|, i + 1);
      ReadsFrom(s2, i + 1);
      assert IsRun(s1, es[1..]) && After(s1, es[1..]) == After(s2, es[1..][1..]);
    }
  }

  /** What is published when nothing interrupts. */
  function SnapshotOf(s: State, header: seq<Entry>): Snapshot {
    Snapshot(header, s.scripts, TrueTotal(s), TrueTotal(s), TrueTotal(s))
  }

  /** dump_stats, not interrupted, publishes the scripts as they are. */
  lemma Collects(s: State, header: seq<Entry>) returns (es: seq<Step>)
    requires Enabled(s, Begin(header))
    ensures IsRun(s, es) && After(s, es) == s.(published := s.published + [SnapshotOf(s, header)])
  {
    var begun := Apply(s, Begin(header));
    assert begun.scripts[..0] == [] && FailsOf(s.scripts)[..0] == [];
    var readings := ReadSteps(|s.scripts|, 0);
    ReadsFrom(begun, 0);
    OneStep(s, Begin(header));
    RunConcat(s, [Begin(header)], readings);
    var end := After(begun, readings);
    RunPlus(s, [Begin(header)] + readings, Publish);
    es := [Begin(header)] + readings + [Publish];
    assert FailsOf(end.scripts) == FailsOf(s.scripts);
    assert Apply(end, Publish).published == s.published + [SnapshotOf(s, header)];
  }

  // ---- failid on such a file ----

  /** Whenever there is one stray quote, with plain text behind it, in the names, messages and lines on the hardware,
      failid can be made to fail, and be
      counted as a failed test: publish, launch it, and reap it. The LED is left alone, although the total that is
      published may be positive. */
  lemma StrayQuoteFails(s: State, header: seq<Entry>, f: Fork) returns (es: seq<Step>)
    requires Enabled(s, Begin(header)) && Enabled(s, Launch(s.led, f)) && f.stream == Opened
    requires TextsFit(header, s.scripts, true) && QuotesOfTexts(header, s.scripts) == 1
    ensures IsRun(s, es) && |After(s, es).scripts| == |s.scripts|
    ensures After(s, es).scripts[s.led].failCount == s.scripts[s.led].failCount + 1
    ensures After(s, es).scripts[s.led].running == 0
    ensures forall i :: 0 <= i < |s.scripts| && i != s.led ==> After(s, es).scripts[i] == s.scripts[i]
    ensures After(s, es).forces == s.forces && After(s, es).published == s.published + [SnapshotOf(s, header)]
  {
    hide Source, FileOf, EntriesOf, QuotesOfTexts, TextsFit, IsHeader, TrueTotal, Sum, IsRun, After;
    assert IsHeader(header);
    es := Collects(s, header);
    var s1 := After(s, es);
    var s2 := Apply(s1, Launch(s.led, f));
    RunPlus(s, es, Launch(s.led, f));
    es := es + [Launch(s.led, f)];
    StrayQuoteLoads(SnapshotOf(s, header), Done(2));
    hide MayLoad;
    var s3 := Apply(s2, LedLoad(f.pid, Done(2)));
    RunPlus(s, es, LedLoad(f.pid, Done(2)));
    es := es + [LedLoad(f.pid, Done(2))];
    RunPlus(s, es, Poll(s.led, []));
    es := es + [Poll(s.led, [])];
  }

  /** Any text that fits a line can become a last message: a test prints it behind the prefix. */
  lemma MessageIsTaken(s: Script, text: seq<u8>)
    requires NulFree(text) && text != [] && !IsBlank(text[|text| - 1]) && |MSG| + |text| + 1 < BUFSIZ
    ensures Drained(s, [MSG + text + [NEWLINE]]).lastMsg == text
  {
    hide Stem, Indent, StrLen;
    var raw := MSG + text + [NEWLINE];
    var line := MSG + text;
    PrefixBytes();
    hide Ascii;
    assert raw[0] == MSG[0] && line[|line| - 1] == text[|text| - 1];
    WholeLine(raw, |line|);
    assert raw[..|line|] == line && line[|MSG|..] == text;
    assert [raw][|[raw]| - 1] == raw;
  }

  lemma PrefixBytes()
    ensures |MSG| == 5 && !IsIndent(MSG[0]) && NulFree(MSG)
  {
  }

  /** A line without indent that ends in a newline loses just that newline. */
  lemma WholeLine(raw: seq<u8>, n: nat)
    requires |raw| == n + 1 && n > 0 && NulFree(raw) && !IsIndent(raw[0])
    requires raw[n] == NEWLINE && !IsBlank(raw[n - 1])
    ensures LineOf(raw) == raw[..n]
  {
    hide StrLen, Indent, Stem;
    var s := CStr(raw, 0);
    assert s == raw;
    assert Indent(s) == 0 && s[0..] == s;
    assert Stem(s) == n;
  }

  /** A size in inches is such a text with one quote, with harmless text in front of it and plain text behind it. */
  lemma PanelMessage()
    ensures var text := Ascii("24\" panel");
      && |text| == 9 && NulFree(text) && !IsBlank(text[|text| - 1])
      && TextFits(text, true, true) && Quotes(text) == 1
  {
    var text := Ascii("24\" panel");
    PanelBytes();
    hide Ascii;
    OneQuoteFits(text, 2);
  }

  lemma PanelBytes()
    ensures var text := Ascii("24\" panel");
      && |text| == 9 && text[8] == 108 && text[2] == QUOTE && NulFree(text)
      && forall k :: 0 <= k < |text| && k != 2 ==> IsPlain(text[k])
  {
  }

  lemma OneQuoteFits(text: seq<u8>, n: nat)
    requires n < |text| && text[n] == QUOTE && forall k :: 0 <= k < |text| && k != n ==> IsPlain(text[k])
    ensures TextFits(text, true, true) && Quotes(text) == 1
  {
    var front, rest := text[..n], text[n + 1..];
    assert text == front + ([QUOTE] + rest) && ([QUOTE] + rest)[1..] == rest;
    PlainFits(front, true, true);
    PlainFits(rest, false, true);
    QuotesConcat(front, [QUOTE] + rest);
    TextFitsConcat(front, [QUOTE] + rest, true, true);
  }

  /** The texts before number j need no escaping, the last message of number j has one quote, and the texts behind it
      are plain. */
  ghost predicate StrayAt(scripts: seq<Script>, j: nat) {
    forall i :: 0 <= i < |scripts| ==>
      var c := scripts[i];
      if i < j then Harmless(c.name) && Harmless(c.lastMsg)
      else if i == j then Harmless(c.name) && TextFits(c.lastMsg, true, true) && Quotes(c.lastMsg) == 1
      else Plain(c.name) && Plain(c.lastMsg)
  }

  lemma {:induction false} StrayTextsFit(header: seq<Entry>, scripts: seq<Script>, j: nat)
    requires AllHarmless(header) && StrayAt(scripts, j)
    ensures TextsFit(header, scripts, true)
    ensures QuotesOfTexts(header, scripts) == if j < |scripts| then 1 else 0
  {
    hide TextFits, Quotes, Harmless, Plain;
    if scripts == [] {
      AllHarmlessFit(header, true);
    } else {
      var n := |scripts| - 1;
      var c := scripts[n];
      StrayTextsFit(header, scripts[..n], j);
      if n <= j {
        HarmlessFits(c.name, true);
        HarmlessFits(c.lastMsg, true);
      } else {
        PlainFits(c.name, false, true);
        PlainFits(c.lastMsg, false, true);
      }
    }
  }

  /** At the start of a burn-in, test number j is launched and prints text as its message. */
  lemma Prints(s0: State, j: nat, text: seq<u8>) returns (es: seq<Step>)
    requires Init(s0) && s0.led < |s0.scripts| && j < |s0.scripts| && j != s0.led
    requires NulFree(text) && text != [] && !IsBlank(text[|text| - 1]) && |MSG| + |text| + 1 < BUFSIZ
    ensures IsRun(s0, es)
    ensures var s := After(s0, es);
      && |s.scripts| == |s0.scripts| && s.scripts == s0.scripts[j := s.scripts[j]] && s.led == s0.led
      && s.scripts[j].name == s0.scripts[j].name && s.scripts[j].lastMsg == text && s.scripts[j].failCount == 0
      && s.collector == Idle && Enabled(s, Launch(s.led, Fork(2, Opened)))
  {
    hide LineOf, MSG, NulFree, IsHeader;
    var first, line := Launch(j, Fork(1, Opened)), MSG + text + [NEWLINE];
    var s1 := Apply(s0, first);
    var second := Poll(j, [line]);
    OneStep(s0, first);
    RunPlus(s0, [first], second);
    MessageIsTaken(s1.scripts[j], text);
    es := [first] + [second];
  }

  /** So in every burn-in with another test than failid, and whatever the hardware says of itself as long as that needs
      no escaping, one line that this test prints can make failid fail, and nothing else has failed. */
  lemma OneLineIsEnough(s0: State, header: seq<Entry>, j: nat) returns (es: seq<Step>)
    requires Init(s0) && s0.led < |s0.scripts| && j < |s0.scripts| && j != s0.led
    requires IsHeader(header) && AllHarmless(header)
    requires forall i :: 0 <= i < |s0.scripts| ==>
      if i <= j then Harmless(s0.scripts[i].name) else Plain(s0.scripts[i].name)
    ensures IsRun(s0, es) && |After(s0, es).scripts| == |s0.scripts|
    ensures forall i :: 0 <= i < |s0.scripts| ==>
      After(s0, es).scripts[i].failCount == if i == s0.led then 1 else 0
    ensures After(s0, es).published != [] && After(s0, es).published[|After(s0, es).published| - 1].header == header
  {
    var text := Ascii("24\" panel");
    PanelMessage();
    PrefixBytes();
    hide Ascii, Quotes, TextFits, NulFree, Enabled, Apply, IsRun, After, TextsFit, QuotesOfTexts, AllHarmless, IsHeader;
    es := Prints(s0, j, text);
    var s := After(s0, es);
    StrayTextsFit(header, s.scripts, j);
    CanBegin(s, header);
    var rest := StrayQuoteFails(s, header, Fork(2, Opened));
    RunConcat(s0, es, rest);
    es := es + rest;
  }

  lemma CanBegin(s: State, header: seq<Entry>)
    requires s.collector == Idle && IsHeader(header)
    ensures Enabled(s, Begin(header))
  {
  }
}
