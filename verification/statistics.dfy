/** breakin.c: what dump_stats publishes of the burn-in, and what its readers find. */
module Statistics {
  import opened Bytes
  import opened Scheduler
  import opened StatFile
  import opened StatQuotes

  const PREFIX := Ascii("BURNIN_")
  const QTY := Ascii("BURNIN_QTY")
  const TOTAL := Ascii("BURNIN_TOTAL_FAIL_QTY")

  /** The five values published of one script. */
  datatype Field = NameField | LastMsg | Running | PassQty | FailQty

  function Suffix(f: Field): seq<u8> {
    match f
    case NameField => Ascii("_NAME")
    case LastMsg => Ascii("_LASTMSG")
    case Running => Ascii("_RUNNING")
    case PassQty => Ascii("_PASS_QTY")
    case FailQty => Ascii("_FAIL_QTY")
  }

  function KeyOf(i: nat, f: Field): seq<u8> {
    PREFIX + Decimal(i) + Suffix(f)
  }

  /** The lines of script number i. */
  function ScriptEntries(i: nat, s: Script): seq<Entry> {
    [Entry(KeyOf(i, NameField), s.name), Entry(KeyOf(i, LastMsg), s.lastMsg),
     Entry(KeyOf(i, Running), Signed(s.running)), Entry(KeyOf(i, PassQty), Decimal(s.passCount)),
     Entry(KeyOf(i, FailQty), Decimal(s.failCount))]
  }

  function AllScripts(scripts: seq<Script>): seq<Entry> {
    if scripts == [] then []
    else
      var n := |scripts| - 1;
      AllScripts(scripts[..n]) + ScriptEntries(n, scripts[n])
  }

  /** The file: the lines on the hardware, then the number of scripts, their lines, and the total of failures. */
  function EntriesOf(header: seq<Entry>, scripts: seq<Script>, total: nat): seq<Entry> {
    Opening(header, |scripts|) + AllScripts(scripts) + Closing(total)
  }

  function Opening(header: seq<Entry>, count: nat): seq<Entry> {
    header + [Entry(QTY, Decimal(count))]
  }

  function Closing(total: nat): seq<Entry> {
    [Entry(TOTAL, Decimal(total))]
  }

  /** The lines on the hardware assign to proper names, none of which is that of the total. */
  predicate IsHeader(header: seq<Entry>) {
    NamesOnly(header) && forall i :: 0 <= i < |header| ==> header[i].key != TOTAL
  }

  /** The total of failures among assignments made, if there is one. */
  function TotalIn(made: seq<Entry>): Option<nat> {
    match ValueOf(made, TOTAL)
    case None => None
    case Some(text) => Number(text)
  }

  // ---- keys ----

  lemma KeyIsName(i: nat, f: Field)
    ensures IsName(KeyOf(i, f)) && KeyOf(i, f) != TOTAL
  {
    SuffixBytes(f);
    hide Suffix, Decimal;
    DecimalDigits(i);
    var key := KeyOf(i, f);
    assert IsDigit(key[7]) by {
      assert key[7] == Decimal(i)[0];
    }
    assert TOTAL[7] == 84;
  }

  lemma SuffixBytes(f: Field)
    ensures forall k :: 0 <= k < |Suffix(f)| ==> IsNameByte(Suffix(f)[k])
  {
  }

  lemma FixedKeys()
    ensures IsName(QTY) && IsName(TOTAL) && QTY != TOTAL
  {
    assert |QTY| != |TOTAL|;
  }

  /** Keys are proper names, and only the last line is that of the total. */
  ghost predicate KeysAreFit(es: seq<Entry>) {
    forall i :: 0 <= i < |es| ==> IsName(es[i].key) && es[i].key != TOTAL
  }

  lemma {:induction false} ScriptKeys(scripts: seq<Script>)
    ensures KeysAreFit(AllScripts(scripts))
  {
    hide KeyOf, IsName;
    if scripts != [] {
      var n := |scripts| - 1;
      ScriptKeys(scripts[..n]);
      forall f: Field
        ensures IsName(KeyOf(n, f)) && KeyOf(n, f) != TOTAL
      {
        KeyIsName(n, f);
      }
    }
  }

  lemma KeysOfEntries(header: seq<Entry>, scripts: seq<Script>, total: nat)
    requires IsHeader(header)
    ensures NamesOnly(EntriesOf(header, scripts, total))
    ensures KeysAreFit(Opening(header, |scripts|) + AllScripts(scripts))
  {
    hide IsName, AllScripts;
    ScriptKeys(scripts);
    FixedKeys();
  }

  // ---- the total ----

  /** Who reads the whole file finds the total; who reads less does not find any. */
  lemma TotalReadsBack(header: seq<Entry>, scripts: seq<Script>, total: nat)
    requires IsHeader(header)
    ensures TotalIn(EntriesOf(header, scripts, total)) == Some(total)
    ensures forall k :: 0 <= k < |EntriesOf(header, scripts, total)| ==>
      TotalIn(EntriesOf(header, scripts, total)[..k]) == None
  {
    hide Decimal, Number, AllScripts, IsHeader, Opening, IsName;
    var es := EntriesOf(header, scripts, total);
    DecimalReadsBack(total);
    KeysOfEntries(header, scripts, total);
    assert es[|es| - 1] == Closing(total)[0];
    forall k | 0 <= k < |es|
      ensures TotalIn(es[..k]) == None
    {
      assert es[..k] == (Opening(header, |scripts|) + AllScripts(scripts))[..k];
      ValueNotSet(es[..k]);
    }
  }

  lemma {:induction false} ValueNotSet(es: seq<Entry>)
    requires KeysAreFit(es)
    ensures ValueOf(es, TOTAL) == None
  {
    if es != [] {
      ValueNotSet(es[..|es| - 1]);
    }
  }

  // ---- the values of one script ----

  lemma KeysDiffer(i: nat, f: Field, j: nat, g: Field)
    requires KeyOf(i, f) == KeyOf(j, g)
    ensures i == j && f == g
  {
    hide Decimal, Suffix;
    var a, b := Decimal(i) + Suffix(f), Decimal(j) + Suffix(g);
    assert PREFIX + a == KeyOf(i, f) && PREFIX + b == KeyOf(j, g);
    hide Ascii;
    assert a == (PREFIX + a)[|PREFIX|..] == (PREFIX + b)[|PREFIX|..] == b;
    DecimalDigits(i);
    DecimalDigits(j);
    SuffixesDiffer(f, g);
    SameDigits(Decimal(i), Suffix(f), Decimal(j), Suffix(g));
    DecimalReadsBack(i);
    DecimalReadsBack(j);
  }

  lemma SuffixesDiffer(f: Field, g: Field)
    ensures Suffix(f) != [] && !IsDigit(Suffix(f)[0]) && Suffix(g) != [] && !IsDigit(Suffix(g)[0])
    ensures Suffix(f) == Suffix(g) ==> f == g
  {
    assert |Suffix(f)| > 1 && |Suffix(g)| > 1 && (Suffix(f)[1] == Suffix(g)[1] ==> f == g);
  }

  lemma SameDigits(a: seq<u8>, x: seq<u8>, b: seq<u8>, y: seq<u8>)
    requires a + x == b + y && x != [] && y != [] && !IsDigit(x[0]) && !IsDigit(y[0])
    requires forall k :: 0 <= k < |a| ==> IsDigit(a[k])
    requires forall k :: 0 <= k < |b| ==> IsDigit(b[k])
    ensures a == b && x == y
  {
    assert (a + x)[|a|] == x[0] && (b + y)[|b|] == y[0];
    assert forall k :: 0 <= k < |a| ==> IsDigit((a + x)[k]);
    assert forall k :: 0 <= k < |b| ==> IsDigit((b + y)[k]);
    assert a == (a + x)[..|a|] && x == (a + x)[|a|..];
  }

  lemma {:induction false} ValueIsLast(es: seq<Entry>, k: nat)
    requires k < |es| && forall j :: k < j < |es| ==> es[j].key != es[k].key
    ensures ValueOf(es, es[k].key) == Some(es[k].value)
  {
    if k < |es| - 1 {
      ValueIsLast(es[..|es| - 1], k);
    }
  }

  /** Where the lines of script number i are, and that no line behind has one of their keys. */
  lemma {:induction false} ScriptLines(scripts: seq<Script>, i: nat)
    requires i < |scripts|
    ensures |AllScripts(scripts)| == 5 * |scripts|
    ensures AllScripts(scripts)[5 * i..5 * i + 5] == ScriptEntries(i, scripts[i])
    ensures forall k, f :: 5 * i + 5 <= k < |AllScripts(scripts)| ==> AllScripts(scripts)[k].key != KeyOf(i, f)
  {
    hide KeyOf, Signed;
    var n := |scripts| - 1;
    var front, last := AllScripts(scripts[..n]), ScriptEntries(n, scripts[n]);
    ScriptCount(scripts[..n]);
    if i < n {
      ScriptLines(scripts[..n], i);
      hide AllScripts;
      assert (front + last)[5 * i..5 * i + 5] == front[5 * i..5 * i + 5];
      forall k, f | 5 * i + 5 <= k < |front + last|
        ensures (front + last)[k].key != KeyOf(i, f)
      {
        if k >= |front| {
          KeysDifferAll(n, i, f);
        }
      }
    } else {
      assert (front + last)[5 * i..5 * i + 5] == last;
    }
  }

  lemma KeysDifferAll(n: nat, i: nat, f: Field)
    requires n != i
    ensures forall g :: KeyOf(n, g) != KeyOf(i, f)
  {
    hide KeyOf;
    forall g
      ensures KeyOf(n, g) != KeyOf(i, f)
    {
      if KeyOf(n, g) == KeyOf(i, f) {
        KeysDiffer(n, g, i, f);
      }
    }
  }

  lemma {:induction false} ScriptCount(scripts: seq<Script>)
    ensures |AllScripts(scripts)| == 5 * |scripts|
  {
    if scripts != [] {
      ScriptCount(scripts[..|scripts| - 1]);
    }
  }

  /** A field of script number i is what its line, number k of the five, says. */
  lemma FieldFound(header: seq<Entry>, scripts: seq<Script>, total: nat, i: nat, k: nat)
    requires i < |scripts| && k < 5
    ensures var e := ScriptEntries(i, scripts[i])[k];
      ValueOf(EntriesOf(header, scripts, total), e.key) == Some(e.value)
  {
    hide KeyOf, AllScripts, ValueOf, Decimal, Signed;
    var es, lines := EntriesOf(header, scripts, total), AllScripts(scripts);
    var at := |header| + 1 + 5 * i + k;
    ScriptLines(scripts, i);
    var own := ScriptEntries(i, scripts[i]);
    assert es[at] == lines[5 * i + k] == lines[5 * i..5 * i + 5][k] == own[k];
    OwnKeysDiffer(i, scripts[i], k);
    forall j | at < j < |es|
      ensures es[j].key != es[at].key
    {
      var m := j - |header| - 1;
      if m < 5 * i + 5 {
        assert es[j] == lines[m] == lines[5 * i..5 * i + 5][m - 5 * i] == own[m - 5 * i];
      } else if m < |lines| {
        assert es[j] == lines[m];
      } else {
        assert es[j] == Closing(total)[0];
      }
    }
    ValueIsLast(es, at);
  }

  lemma OwnKeysDiffer(i: nat, s: Script, k: nat)
    requires k < 5
    ensures ScriptEntries(i, s)[k].key == KeyOf(i, [NameField, LastMsg, Running, PassQty, FailQty][k]) != TOTAL
    ensures forall m :: k < m < 5 ==> ScriptEntries(i, s)[m].key != ScriptEntries(i, s)[k].key
  {
    hide KeyOf, Decimal, Signed;
    forall f, g | f != g
      ensures KeyOf(i, f) != KeyOf(i, g)
    {
      if KeyOf(i, f) == KeyOf(i, g) {
        KeysDiffer(i, f, i, g);
      }
    }
    forall f
      ensures KeyOf(i, f) != TOTAL
    {
      KeyIsName(i, f);
    }
  }

  /** key is "BURNIN_", the number i in decimal, and suffix. */
  ghost predicate IsScriptKey(key: seq<u8>, i: nat, suffix: string) {
    exists front, back :: IsText(front, "BURNIN_") && IsText(back, suffix) && key == front + Decimal(i) + back
  }

  lemma SuffixIs(f: Field)
    ensures IsText(Suffix(f), match f
      case NameField => "_NAME"
      case LastMsg => "_LASTMSG"
      case Running => "_RUNNING"
      case PassQty => "_PASS_QTY"
      case FailQty => "_FAIL_QTY")
  {
    AsciiIsText("_NAME");
    AsciiIsText("_LASTMSG");
    AsciiIsText("_RUNNING");
    AsciiIsText("_PASS_QTY");
    AsciiIsText("_FAIL_QTY");
  }

  lemma SameText(a: seq<u8>, b: seq<u8>, s: string)
    requires IsText(a, s) && IsText(b, s)
    ensures a == b
  {
  }

  lemma KeyIs(key: seq<u8>, i: nat, f: Field, suffix: string)
    requires IsScriptKey(key, i, suffix) && IsText(Suffix(f), suffix)
    ensures key == KeyOf(i, f)
  {
    AsciiIsText("BURNIN_");
    hide Ascii, Suffix, Decimal, IsText;
    var front, back :| IsText(front, "BURNIN_") && IsText(back, suffix) && key == front + Decimal(i) + back;
    SameText(front, PREFIX, "BURNIN_");
    SameText(back, Suffix(f), suffix);
  }

  /** Who reads the whole file finds of every script what it was when it was read, under the key for that. A negative
      number has a minus sign in front. */
  lemma ScriptReadsBack(header: seq<Entry>, scripts: seq<Script>, total: nat, i: nat, key: seq<u8>)
    requires i < |scripts|
    ensures var found, s := ValueOf(EntriesOf(header, scripts, total), key), scripts[i];
      && (IsScriptKey(key, i, "_NAME") ==> found == Some(s.name))
      && (IsScriptKey(key, i, "_LASTMSG") ==> found == Some(s.lastMsg))
      && (IsScriptKey(key, i, "_PASS_QTY") ==> found.Some? && Number(found.value) == Some(s.passCount))
      && (IsScriptKey(key, i, "_FAIL_QTY") ==> found.Some? && Number(found.value) == Some(s.failCount))
      && (IsScriptKey(key, i, "_RUNNING") && s.running >= 0 ==>
        found.Some? && Number(found.value) == Some(s.running))
      && (IsScriptKey(key, i, "_RUNNING") && s.running < 0 ==>
        && found.Some? && found.value != [] && found.value[0] as int == '-' as int
        && Number(found.value[1..]) == Some(-s.running))
  {
    hide EntriesOf, ValueOf, Decimal, Number, Signed, KeyOf, Suffix, IsScriptKey, IsText;
    var s := scripts[i];
    forall k | 0 <= k < 5
      ensures var e := ScriptEntries(i, s)[k]; ValueOf(EntriesOf(header, scripts, total), e.key) == Some(e.value)
    {
      FieldFound(header, scripts, total, i, k);
    }
    var own := ScriptEntries(i, s);
    assert own[0] == Entry(KeyOf(i, NameField), s.name) && own[1] == Entry(KeyOf(i, LastMsg), s.lastMsg);
    assert own[2] == Entry(KeyOf(i, Running), Signed(s.running));
    assert own[3] == Entry(KeyOf(i, PassQty), Decimal(s.passCount));
    assert own[4] == Entry(KeyOf(i, FailQty), Decimal(s.failCount));
    hide ScriptEntries;
    AllKeys(key, i);
    DecimalReadsBack(s.passCount);
    DecimalReadsBack(s.failCount);
    SignedReadsBack(s.running);
  }

  lemma AllKeys(key: seq<u8>, i: nat)
    ensures IsScriptKey(key, i, "_NAME") ==> key == KeyOf(i, NameField)
    ensures IsScriptKey(key, i, "_LASTMSG") ==> key == KeyOf(i, LastMsg)
    ensures IsScriptKey(key, i, "_RUNNING") ==> key == KeyOf(i, Running)
    ensures IsScriptKey(key, i, "_PASS_QTY") ==> key == KeyOf(i, PassQty)
    ensures IsScriptKey(key, i, "_FAIL_QTY") ==> key == KeyOf(i, FailQty)
  {
    hide KeyOf, Suffix, IsScriptKey, IsText;
    forall f: Field, suffix: string | IsScriptKey(key, i, suffix) && IsText(Suffix(f), suffix)
      ensures key == KeyOf(i, f)
    {
      KeyIs(key, i, f, suffix);
    }
    SuffixIs(NameField);
    SuffixIs(LastMsg);
    SuffixIs(Running);
    SuffixIs(PassQty);
    SuffixIs(FailQty);
  }

  lemma SignedReadsBack(n: int)
    ensures n >= 0 ==> Number(Signed(n)) == Some(n)
    ensures n < 0 ==> Signed(n) != [] && Signed(n)[0] as int == '-' as int && Number(Signed(n)[1..]) == Some(-n)
  {
    hide Number, Decimal;
    SignedIs(n);
    DecimalReadsBack(if n < 0 then -n else n);
  }

  /** The number of scripts and the total of failures are found under their keys. */
  lemma CountsReadBack(header: seq<Entry>, scripts: seq<Script>, total: nat, key: seq<u8>)
    requires IsHeader(header)
    ensures var found := ValueOf(EntriesOf(header, scripts, total), key);
      && (IsText(key, "BURNIN_QTY") ==> found.Some? && Number(found.value) == Some(|scripts|))
      && (IsText(key, "BURNIN_TOTAL_FAIL_QTY") ==> found.Some? && Number(found.value) == Some(total))
  {
    hide Ascii, IsText, Decimal, Number, AllScripts, ValueOf;
    FixedTexts(key);
    var es := EntriesOf(header, scripts, total);
    var at := |header|;
    ScriptKeys(scripts);
    QtyIsApart(scripts);
    FixedKeys();
    assert es[at] == Entry(QTY, Decimal(|scripts|)) && es[|es| - 1] == Closing(total)[0];
    forall j | at < j < |es|
      ensures es[j].key != QTY
    {
      assert es[j] == if j < |es| - 1 then AllScripts(scripts)[j - at - 1] else Closing(total)[0];
    }
    ValueIsLast(es, at);
    ValueIsLast(es, |es| - 1);
    DecimalReadsBack(|scripts|);
    DecimalReadsBack(total);
  }

  lemma FixedTexts(key: seq<u8>)
    ensures IsText(QTY, "BURNIN_QTY") && (IsText(key, "BURNIN_QTY") ==> key == QTY)
    ensures IsText(TOTAL, "BURNIN_TOTAL_FAIL_QTY") && (IsText(key, "BURNIN_TOTAL_FAIL_QTY") ==> key == TOTAL)
  {
    AsciiIsText("BURNIN_QTY");
    AsciiIsText("BURNIN_TOTAL_FAIL_QTY");
    hide Ascii;
  }

  lemma {:induction false} QtyIsApart(scripts: seq<Script>)
    ensures forall k :: 0 <= k < |AllScripts(scripts)| ==> AllScripts(scripts)[k].key != QTY
  {
    hide KeyOf;
    if scripts != [] {
      var n := |scripts| - 1;
      QtyIsApart(scripts[..n]);
      forall f: Field
        ensures KeyOf(n, f) != QTY
      {
        KeyIsNotQty(n, f);
      }
    }
  }

  lemma KeyIsNotQty(i: nat, f: Field)
    ensures KeyOf(i, f) != QTY
  {
    hide Suffix, Decimal;
    DecimalDigits(i);
    assert KeyOf(i, f)[7] == Decimal(i)[0];
    assert QTY[7] == 81;
  }

  /** Line by line: what is said of the hardware, the number of scripts, five lines a script, and the total. */
  lemma Layout(header: seq<Entry>, scripts: seq<Script>, total: nat)
    ensures var es := EntriesOf(header, scripts, total);
      && |es| == |header| + 5 * |scripts| + 2 && es[..|header|] == header
      && IsText(es[|header|].key, "BURNIN_QTY") && IsText(es[|es| - 1].key, "BURNIN_TOTAL_FAIL_QTY")
    ensures forall i :: 0 <= i < |scripts| ==>
      EntriesOf(header, scripts, total)[|header| + 1 + 5 * i..|header| + 6 + 5 * i] == ScriptEntries(i, scripts[i])
  {
    hide Ascii, IsText, AllScripts, ScriptEntries, Decimal;
    FixedTexts([]);
    var es, lines := EntriesOf(header, scripts, total), AllScripts(scripts);
    ScriptCount(scripts);
    forall i | 0 <= i < |scripts|
      ensures es[|header| + 1 + 5 * i..|header| + 6 + 5 * i] == ScriptEntries(i, scripts[i])
    {
      ScriptLines(scripts, i);
      assert es[|header| + 1 + 5 * i..|header| + 6 + 5 * i] == lines[5 * i..5 * i + 5];
    }
  }

  // ---- values ----

  /** Names and last messages are the only texts published of the scripts. */
  ghost predicate HarmlessTexts(header: seq<Entry>, scripts: seq<Script>) {
    && AllHarmless(header)
    && forall i :: 0 <= i < |scripts| ==> Harmless(scripts[i].name) && Harmless(scripts[i].lastMsg)
  }

  ghost predicate HarmlessOrQuoteTexts(header: seq<Entry>, scripts: seq<Script>) {
    && AllHarmlessOrQuote(header)
    && forall i :: 0 <= i < |scripts| ==> HarmlessOrQuote(scripts[i].name) && HarmlessOrQuote(scripts[i].lastMsg)
  }

  /** The number of quotes in the texts published. */
  function QuotesOfTexts(header: seq<Entry>, scripts: seq<Script>): nat {
    if scripts == [] then QuotesIn(header)
    else
      var n := |scripts| - 1;
      QuotesOfTexts(header, scripts[..n]) + Quotes(scripts[n].name) + Quotes(scripts[n].lastMsg)
  }

  /** The texts, one behind the other, fit the quotes that are put around them. */
  predicate TextsFit(header: seq<Entry>, scripts: seq<Script>, blanks: bool) {
    if scripts == [] then Fits(header, true, blanks)
    else
      var n := |scripts| - 1;
      var quoted := Turned(true, QuotesOfTexts(header, scripts[..n]));
      && TextsFit(header, scripts[..n], blanks) && TextFits(scripts[n].name, quoted, blanks)
      && TextFits(scripts[n].lastMsg, Turned(quoted, Quotes(scripts[n].name)), blanks)
  }

  lemma NumbersArePlain(n: int)
    ensures Plain(Signed(n)) && Harmless(Signed(n)) && Quotes(Signed(n)) == 0
    ensures forall quoted, blanks :: TextFits(Signed(n), quoted, blanks)
    ensures n >= 0 ==> Signed(n) == Decimal(n)
  {
    DecimalDigits(if n < 0 then -n else n);
    NoQuotes(Signed(n));
    hide Signed;
    forall quoted, blanks
      ensures TextFits(Signed(n), quoted, blanks)
    {
      PlainFits(Signed(n), quoted, blanks);
    }
  }

  lemma {:induction false} ScriptsHarmlessIff(scripts: seq<Script>)
    ensures AllHarmless(AllScripts(scripts)) <==> HarmlessTexts([], scripts)
  {
    hide Harmless, ScriptEntries;
    if scripts != [] {
      var n := |scripts| - 1;
      var front := scripts[..n];
      assert scripts == front + [scripts[n]];
      ScriptsHarmlessIff(front);
      OneScriptHarmlessIff(n, scripts[n]);
      HarmlessConcat(AllScripts(front), ScriptEntries(n, scripts[n]));
      hide AllHarmless;
    }
  }

  lemma OneScriptHarmlessIff(i: nat, s: Script)
    ensures AllHarmless(ScriptEntries(i, s)) <==> Harmless(s.name) && Harmless(s.lastMsg)
  {
    hide Harmless, KeyOf;
    var es := ScriptEntries(i, s);
    NumbersArePlain(s.running);
    NumbersArePlain(s.passCount);
    NumbersArePlain(s.failCount);
    assert es[0].value == s.name && es[1].value == s.lastMsg;
  }

  lemma HarmlessConcat(a: seq<Entry>, b: seq<Entry>)
    ensures AllHarmless(a + b) <==> AllHarmless(a) && AllHarmless(b)
  {
    hide Harmless;
    assert forall i :: 0 <= i < |a| ==> (a + b)[i] == a[i];
    assert forall i :: 0 <= i < |b| ==> (a + b)[|a| + i] == b[i];
  }

  /** The values of the file are harmless exactly if the texts in it are. */
  lemma EntriesHarmlessIff(header: seq<Entry>, scripts: seq<Script>, total: nat)
    ensures AllHarmless(EntriesOf(header, scripts, total)) <==> HarmlessTexts(header, scripts)
  {
    hide Harmless, AllScripts;
    ScriptsHarmlessIff(scripts);
    NumbersArePlain(|scripts|);
    NumbersArePlain(total);
    HarmlessConcat(header, [Entry(QTY, Decimal(|scripts|))]);
    HarmlessConcat(Opening(header, |scripts|), AllScripts(scripts));
    HarmlessConcat(Opening(header, |scripts|) + AllScripts(scripts), Closing(total));
  }

  lemma {:induction false} ScriptsHaveQuotesOnly(scripts: seq<Script>)
    requires HarmlessOrQuoteTexts([], scripts)
    ensures AllHarmlessOrQuote(AllScripts(scripts))
  {
    hide KeyOf;
    if scripts != [] {
      var last := scripts[|scripts| - 1];
      ScriptsHaveQuotesOnly(scripts[..|scripts| - 1]);
      NumbersArePlain(last.running);
      NumbersArePlain(last.passCount);
      NumbersArePlain(last.failCount);
    }
  }

  lemma EntriesHaveQuotesOnly(header: seq<Entry>, scripts: seq<Script>, total: nat)
    requires HarmlessOrQuoteTexts(header, scripts)
    ensures AllHarmlessOrQuote(EntriesOf(header, scripts, total))
  {
    hide AllScripts;
    ScriptsHaveQuotesOnly(scripts);
    NumbersArePlain(|scripts|);
    NumbersArePlain(total);
  }

  /** A published file is read in as it was published if and only if no text in it contains a quote, given that none
      contains another of the special bytes. */
  lemma PublishedLoadsIff(header: seq<Entry>, scripts: seq<Script>, total: nat)
    requires IsHeader(header) && HarmlessOrQuoteTexts(header, scripts)
    ensures var es := EntriesOf(header, scripts, total);
      Source(FileOf(es)) == Complete(es) <==> QuotesOfTexts(header, scripts) == 0
  {
    hide Source, FileOf, EntriesOf, QuotesIn, QuotesOfTexts, IsHeader, HarmlessOrQuoteTexts;
    KeysOfEntries(header, scripts, total);
    EntriesHaveQuotesOnly(header, scripts, total);
    QuotesOfEntries(header, scripts, total);
    LoadsAsPublishedIff(EntriesOf(header, scripts, total));
  }

  lemma {:induction false} QuotesInConcat(a: seq<Entry>, b: seq<Entry>)
    ensures QuotesIn(a + b) == QuotesIn(a) + QuotesIn(b)
    decreases |a|
  {
    if a == [] {
      assert a + b == b;
    } else {
      assert (a + b)[1..] == a[1..] + b;
      QuotesInConcat(a[1..], b);
    }
  }

  lemma QuotesInOne(e: Entry)
    ensures QuotesIn([e]) == Quotes(e.value)
  {
    assert [e][1..] == [];
  }

  lemma QuotesOfScript(i: nat, s: Script)
    ensures QuotesIn(ScriptEntries(i, s)) == Quotes(s.name) + Quotes(s.lastMsg)
  {
    hide Quotes, KeyOf, QuotesIn;
    var es := ScriptEntries(i, s);
    NumbersArePlain(s.running);
    NumbersArePlain(s.passCount);
    NumbersArePlain(s.failCount);
    assert es == [es[0]] + ([es[1]] + ([es[2]] + ([es[3]] + [es[4]])));
    forall a, b
      ensures QuotesIn([a] + b) == Quotes(a.value) + QuotesIn(b)
    {
      QuotesInOne(a);
      QuotesInConcat([a], b);
    }
    QuotesInOne(es[4]);
  }

  lemma {:induction false} QuotesOfScripts(header: seq<Entry>, scripts: seq<Script>)
    ensures QuotesIn(header) + QuotesIn(AllScripts(scripts)) == QuotesOfTexts(header, scripts)
  {
    hide ScriptEntries, Quotes;
    if scripts != [] {
      var n := |scripts| - 1;
      QuotesOfScripts(header, scripts[..n]);
      QuotesOfScript(n, scripts[n]);
      QuotesInConcat(AllScripts(scripts[..n]), ScriptEntries(n, scripts[n]));
    }
  }

  /** The quotes in the values of the file are those in the texts. */
  lemma QuotesOfEntries(header: seq<Entry>, scripts: seq<Script>, total: nat)
    ensures QuotesIn(EntriesOf(header, scripts, total)) == QuotesOfTexts(header, scripts)
  {
    hide QuotesIn, QuotesOfTexts, AllScripts, Decimal, Quotes;
    QuotesOfScripts(header, scripts);
    NumbersArePlain(|scripts|);
    NumbersArePlain(total);
    var count := Entry(QTY, Decimal(|scripts|));
    QuotesInOne(count);
    QuotesInOne(Closing(total)[0]);
    QuotesInConcat(header, [count]);
    QuotesInConcat(Opening(header, |scripts|), AllScripts(scripts));
    QuotesInConcat(Opening(header, |scripts|) + AllScripts(scripts), Closing(total));
  }

  lemma OneScriptFitsIff(i: nat, s: Script, quoted: bool, blanks: bool)
    ensures Fits(ScriptEntries(i, s), quoted, blanks) <==>
            TextFits(s.name, quoted, blanks) && TextFits(s.lastMsg, Turned(quoted, Quotes(s.name)), blanks)
  {
    hide KeyOf, TextFits, Quotes, Signed, Decimal;
    NumbersArePlain(s.running);
    NumbersArePlain(s.passCount);
    NumbersArePlain(s.failCount);
    var es := ScriptEntries(i, s);
    assert es[1..] == [es[1], es[2], es[3], es[4]] && es[1..][1..] == [es[2], es[3], es[4]];
    NumbersFit(es[2..], Turned(quoted, Quotes(s.name) + Quotes(s.lastMsg)), blanks);
    assert es[1..][1..] == es[2..];
  }

  /** Lines of numbers fit anywhere. */
  lemma {:induction false} NumbersFit(es: seq<Entry>, quoted: bool, blanks: bool)
    requires forall i :: 0 <= i < |es| ==> Quotes(es[i].value) == 0
    requires forall i, q, b :: 0 <= i < |es| ==> TextFits(es[i].value, q, b)
    ensures Fits(es, quoted, blanks) && QuotesIn(es) == 0
  {
    hide TextFits, Quotes;
    if es != [] {
      NumbersFit(es[1..], quoted, blanks);
    }
  }

  lemma {:induction false} ScriptsFitIff(header: seq<Entry>, scripts: seq<Script>, blanks: bool)
    ensures TextsFit(header, scripts, blanks) <==>
            Fits(header, true, blanks) && Fits(AllScripts(scripts), Turned(true, QuotesIn(header)), blanks)
  {
    hide ScriptEntries, Quotes, TextFits, QuotesIn, Fits;
    if scripts == [] {
      NumbersFit([], Turned(true, QuotesIn(header)), blanks);
    } else {
      var n := |scripts| - 1;
      var front := AllScripts(scripts[..n]);
      ScriptsFitIff(header, scripts[..n], blanks);
      QuotesOfScripts(header, scripts[..n]);
      OneScriptFitsIff(n, scripts[n], Turned(true, QuotesOfTexts(header, scripts[..n])), blanks);
      FitsConcat(front, ScriptEntries(n, scripts[n]), Turned(true, QuotesIn(header)), blanks);
    }
  }

  /** The values of the file fit exactly if the texts do. */
  lemma EntriesFitIff(header: seq<Entry>, scripts: seq<Script>, total: nat, blanks: bool)
    ensures Fits(EntriesOf(header, scripts, total), true, blanks) <==> TextsFit(header, scripts, blanks)
  {
    hide QuotesIn, TextsFit, AllScripts, Decimal, Quotes, Fits, TextFits;
    var count, front := [Entry(QTY, Decimal(|scripts|))], Opening(header, |scripts|) + AllScripts(scripts);
    NumbersArePlain(|scripts|);
    NumbersArePlain(total);
    NumbersFit(count, Turned(true, QuotesIn(header)), blanks);
    NumbersFit(Closing(total), Turned(true, QuotesIn(front)), blanks);
    QuotesInConcat(header, count);
    FitsConcat(header, count, true, blanks);
    FitsConcat(Opening(header, |scripts|), AllScripts(scripts), true, blanks);
    FitsConcat(front, Closing(total), true, blanks);
    ScriptsFitIff(header, scripts, blanks);
  }

  // ---- when the total is found ----

  /** Whatever the texts are: a published file that is read to its end gives the total that was published. */
  lemma CompleteGivesTotal(header: seq<Entry>, scripts: seq<Script>, total: nat)
    requires Source(FileOf(EntriesOf(header, scripts, total))).Complete?
    ensures TotalIn(Source(FileOf(EntriesOf(header, scripts, total))).made) == Some(total)
  {
    hide Source, FileOf, AllScripts, Decimal, Number, IsName, Plain;
    FixedKeys();
    NumbersArePlain(total);
    DecimalReadsBack(total);
    LastLineHolds(Opening(header, |scripts|) + AllScripts(scripts), Closing(total)[0]);
  }

  /** With harmless text inside of quotes, and plain text without blanks outside, a published file is read to its end if
      and only if the number of quotes in its texts is even. */
  lemma EvenTextsIff(header: seq<Entry>, scripts: seq<Script>, total: nat)
    requires IsHeader(header) && TextsFit(header, scripts, false)
    ensures var load := Source(FileOf(EntriesOf(header, scripts, total)));
      && (load.Complete? <==> QuotesOfTexts(header, scripts) % 2 == 0)
      && (load.Unterminated? <==> QuotesOfTexts(header, scripts) % 2 == 1)
  {
    hide Source, FileOf, EntriesOf, QuotesIn, QuotesOfTexts, TextsFit, Fits, IsHeader;
    KeysOfEntries(header, scripts, total);
    EntriesFitIff(header, scripts, total, false);
    QuotesOfEntries(header, scripts, total);
    EvenQuotesIff(EntriesOf(header, scripts, total));
  }
}
