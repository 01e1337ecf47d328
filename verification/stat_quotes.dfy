/** What the shell makes of a statistics file whose values contain quotes. */
module StatQuotes {
  import opened Bytes
  import opened StatFile

  // ---- values with quotes ----

  /** No text the shell has taken contains a quote. */
  ghost predicate QuoteFree(sh: Shell) {
    sh.Shell? ==>
      && (forall i :: 0 <= i < |sh.made| ==> QUOTE !in sh.made[i].value)
      && (forall i :: 0 <= i < |sh.pending| ==> QUOTE !in sh.pending[i].value)
      && (sh.place.InValue? ==> QUOTE !in sh.place.text)
  }

  lemma {:induction false} StaysQuoteFree(sh: Shell, text: seq<u8>)
    requires QuoteFree(sh)
    ensures QuoteFree(ReadAll(sh, text))
    decreases |text|
  {
    if text != [] {
      assert QuoteFree(Read(sh, text[0]));
      hide QuoteFree, Read;
      StaysQuoteFree(Read(sh, text[0]), text[1..]);
    }
  }

  /** A file is read in as it was published if and only if no value contains a quote, given that none contains
      another of the special bytes. */
  lemma LoadsAsPublishedIff(es: seq<Entry>)
    requires NamesOnly(es) && AllHarmlessOrQuote(es)
    ensures Source(FileOf(es)) == Complete(es) <==> QuotesIn(es) == 0
  {
    hide ReadAll, FileOf, IsName, QuotesIn;
    NoQuotesIn(es);
    if QuotesIn(es) == 0 {
      RoundTrip(es);
    } else {
      StaysQuoteFree(Start([]), FileOf(es));
      var sh := ReadAll(Start([]), FileOf(es));
      assert sh.Shell? ==> QuoteFree(CommandEnd(sh));
    }
  }

  lemma {:induction false} QuotesConcat(a: seq<u8>, b: seq<u8>)
    ensures Quotes(a + b) == Quotes(a) + Quotes(b)
    decreases |a|
  {
    if a == [] {
      assert a + b == b;
    } else {
      assert (a + b)[1..] == a[1..] + b;
      QuotesConcat(a[1..], b);
    }
  }

  lemma NoQuotes(s: seq<u8>)
    ensures Quotes(s) == 0 <==> QUOTE !in s
  {
  }

  lemma {:induction false} NoQuotesIn(es: seq<Entry>)
    ensures QuotesIn(es) == 0 <==> forall i :: 0 <= i < |es| ==> QUOTE !in es[i].value
  {
    hide Quotes;
    if es != [] {
      NoQuotes(es[0].value);
      NoQuotesIn(es[1..]);
      assert es == [es[0]] + es[1..];
    }
  }

  lemma {:induction false} QuotesOfFile(es: seq<Entry>)
    requires NamesOnly(es)
    ensures Quotes(FileOf(es)) == 2 * |es| + QuotesIn(es)
    decreases |es|
  {
    hide Quotes;
    NoQuotes([]);
    if es != [] {
      var key, value := es[0].key, es[0].value;
      assert IsName(key);
      NoQuotes(key);
      QuotesConcat(key, [EQUALS, QUOTE]);
      QuotesConcat(value, [QUOTE, NEWLINE]);
      QuotesConcat(key + [EQUALS, QUOTE], value + [QUOTE, NEWLINE]);
      QuotesConcat(LineText(es[0]), FileOf(es[1..]));
      OneOfTwo();
      QuotesOfFile(es[1..]);
    }
  }

  lemma OneOfTwo()
    ensures Quotes([EQUALS, QUOTE]) == 1 && Quotes([QUOTE, NEWLINE]) == 1
  {
    assert [EQUALS, QUOTE][1..] == [QUOTE] && [QUOTE, NEWLINE][1..] == [NEWLINE];
    assert [QUOTE][1..] == [] && [NEWLINE][1..] == [];
    assert Quotes([QUOTE]) == 1 && Quotes([NEWLINE]) == 0;
  }

  /** A quote opens and the next one closes, where there are no comments. */
  lemma {:induction false} QuotesToggle(sh: Shell, text: seq<u8>)
    requires HASH !in text && (sh.Shell? ==> !sh.place.InComment?)
    ensures var sh' := ReadAll(sh, text);
      sh'.Shell? ==> sh.Shell? && (sh'.quoted <==> (Quotes(text) + if sh.quoted then 1 else 0) % 2 == 1)
    decreases |text|
  {
    if text != [] {
      var sh1 := Read(sh, text[0]);
      assert sh1.Shell? ==>
        sh.Shell? && !sh1.place.InComment? && (sh1.quoted <==> (text[0] == QUOTE) != sh.quoted);
      hide Read;
      QuotesToggle(sh1, text[1..]);
    }
  }

  /** A file whose values contain an odd number of quotes, and no number sign, ends in an open quote, unless the shell
      loses its way. */
  lemma OddStaysOpen(es: seq<Entry>)
    requires NamesOnly(es) && QuotesIn(es) % 2 == 1 && forall i :: 0 <= i < |es| ==> HASH !in es[i].value
    ensures !Source(FileOf(es)).Foreign? ==> Source(FileOf(es)).Unterminated?
  {
    hide ReadAll, FileOf, IsName, Quotes, QuotesIn;
    QuotesOfFile(es);
    NoHash(es);
    QuotesToggle(Start([]), FileOf(es));
  }

  lemma {:induction false} NoHash(es: seq<Entry>)
    requires NamesOnly(es) && forall i :: 0 <= i < |es| ==> HASH !in es[i].value
    ensures HASH !in FileOf(es)
    decreases |es|
  {
    if es != [] {
      assert IsName(es[0].key);
      NoHash(es[1..]);
    }
  }

  /** With one it may: behind a stray quote and a blank the rest of the line is a comment, and the quote at its end does
      not count. */
  lemma CommentHides(made: seq<Entry>, key: seq<u8>, front: seq<u8>, rest: seq<u8>)
    requires IsName(key) && Harmless(front) && NUL !in rest && NEWLINE !in rest
    ensures ReadAll(Start(made), LineText(Entry(key, front + [QUOTE, SPACE, HASH] + rest))) ==
            Start(made + [Entry(key, front)])
  {
    hide ReadAll;
    var e := Entry(key, front + [QUOTE, SPACE, HASH] + rest);
    var sh := InLine(made, key);
    ReadKey(made, e);
    ReadHarmless(sh, front);
    assert [] + front == front;
    var tail := rest + [QUOTE];
    assert e.value + [QUOTE, NEWLINE] == front + ([QUOTE, SPACE] + ([HASH] + (tail + [NEWLINE])));
    var sh1 := ReadAll(sh, front);
    ReadConcat(sh, front, [QUOTE, SPACE] + ([HASH] + (tail + [NEWLINE])));
    ReadTwo(sh1, QUOTE, SPACE);
    ReadConcat(sh1, [QUOTE, SPACE], [HASH] + (tail + [NEWLINE]));
    var sh2 := Shell(made, [Entry(key, front)], false, Between, false);
    assert ReadAll(sh1, [QUOTE, SPACE]) == sh2;
    ReadOne(sh2, HASH);
    ReadConcat(sh2, [HASH], tail + [NEWLINE]);
    var sh3 := sh2.(place := InComment);
    ReadComment(sh3, tail);
    ReadConcat(sh3, tail, [NEWLINE]);
    ReadOne(sh3, NEWLINE);
  }

  lemma {:induction false} ReadComment(sh: Shell, text: seq<u8>)
    requires sh.Shell? && sh.place.InComment? && !sh.quoted && NUL !in text && NEWLINE !in text
    ensures ReadAll(sh, text) == sh
    decreases |text|
  {
    if text != [] {
      assert Read(sh, text[0]) == sh;
      ReadComment(sh, text[1..]);
    }
  }

  /** With a word behind it that is no assignment, it is a command, and what that does is beyond the model: the line
      does not assign anything. */
  lemma CommandIsLost(made: seq<Entry>, key: seq<u8>, front: seq<u8>, word: seq<u8>)
    requires IsName(key) && Harmless(front) && IsName(word)
    ensures ReadAll(Start(made), LineText(Entry(key, front + [QUOTE, SPACE] + word + [QUOTE]))) == Lost
  {
    hide ReadAll;
    var e := Entry(key, front + [QUOTE, SPACE] + word + [QUOTE]);
    var sh := InLine(made, key);
    ReadKey(made, e);
    ReadHarmless(sh, front);
    assert [] + front == front;
    var close := [QUOTE] + [QUOTE, NEWLINE];
    assert e.value + [QUOTE, NEWLINE] == front + ([QUOTE, SPACE] + (word + close));
    var sh1 := ReadAll(sh, front);
    ReadConcat(sh, front, [QUOTE, SPACE] + (word + close));
    ReadTwo(sh1, QUOTE, SPACE);
    ReadConcat(sh1, [QUOTE, SPACE], word + close);
    var sh2 := Shell(made, [Entry(key, front)], false, Between, false);
    assert ReadAll(sh1, [QUOTE, SPACE]) == sh2;
    assert [] + word == word;
    ReadName(sh2, [], word);
    ReadConcat(sh2, word, close);
    var sh3 := sh2.(place := InName(word));
    ReadConcat(sh3, [QUOTE], [QUOTE, NEWLINE]);
    ReadOne(sh3, QUOTE);
    ReadTwo(Read(sh3, QUOTE), QUOTE, NEWLINE);
  }

  // ---- quotes that open and close ----

  /** A text that begins inside of quotes, or outside: what lies inside is harmless, and what lies outside is plain,
      with blanks only where they may be. */
  predicate TextFits(s: seq<u8>, quoted: bool, blanks: bool) {
    s == [] ||
    if s[0] == QUOTE then TextFits(s[1..], !quoted, blanks)
    else
      && (if quoted then IsHarmless(s[0]) else IsPlain(s[0]) && (blanks || !IsWhite(s[0])))
      && TextFits(s[1..], quoted, blanks)
  }

  /** Inside or outside, n quotes later. */
  function Turned(quoted: bool, n: nat): bool {
    quoted == (n % 2 == 0)
  }

  /** The same for values one behind the other. */
  predicate Fits(es: seq<Entry>, quoted: bool, blanks: bool) {
    es == [] || (TextFits(es[0].value, quoted, blanks) && Fits(es[1..], Turned(quoted, Quotes(es[0].value)), blanks))
  }

  lemma {:induction false} TextFitsConcat(a: seq<u8>, b: seq<u8>, quoted: bool, blanks: bool)
    ensures TextFits(a + b, quoted, blanks) <==>
            TextFits(a, quoted, blanks) && TextFits(b, Turned(quoted, Quotes(a)), blanks)
    decreases |a|
  {
    if a == [] {
      assert a + b == b;
    } else {
      assert (a + b)[1..] == a[1..] + b;
      TextFitsConcat(a[1..], b, if a[0] == QUOTE then !quoted else quoted, blanks);
    }
  }

  lemma {:induction false} FitsConcat(a: seq<Entry>, b: seq<Entry>, quoted: bool, blanks: bool)
    ensures Fits(a + b, quoted, blanks) <==> Fits(a, quoted, blanks) && Fits(b, Turned(quoted, QuotesIn(a)), blanks)
    decreases |a|
  {
    hide TextFits, Quotes;
    if a == [] {
      assert a + b == b;
    } else {
      assert (a + b)[1..] == a[1..] + b;
      FitsConcat(a[1..], b, Turned(quoted, Quotes(a[0].value)), blanks);
    }
  }

  /** Harmless texts fit inside. */
  lemma {:induction false} HarmlessFits(s: seq<u8>, blanks: bool)
    ensures Harmless(s) <==> TextFits(s, true, blanks) && Quotes(s) == 0
  {
    if s != [] {
      HarmlessFits(s[1..], blanks);
      assert s == [s[0]] + s[1..];
    }
  }

  ghost predicate Plain(s: seq<u8>) {
    forall k :: 0 <= k < |s| ==> IsPlain(s[k])
  }

  /** Plain texts fit anywhere. */
  lemma {:induction false} PlainFits(s: seq<u8>, quoted: bool, blanks: bool)
    requires Plain(s) && (blanks || forall k :: 0 <= k < |s| ==> !IsWhite(s[k]))
    ensures TextFits(s, quoted, blanks) && Quotes(s) == 0
  {
    if s != [] {
      PlainFits(s[1..], quoted, blanks);
    }
  }

  lemma NamesArePlain(key: seq<u8>)
    requires IsName(key)
    ensures Plain(key) && Harmless(key) && Quotes(key) == 0 && forall k :: 0 <= k < |key| ==> !IsWhite(key[k])
  {
    NoQuotes(key);
  }

  lemma {:induction false} AllHarmlessFit(es: seq<Entry>, blanks: bool)
    requires AllHarmless(es)
    ensures Fits(es, true, blanks) && QuotesIn(es) == 0
  {
    hide TextFits, Quotes, Harmless;
    if es != [] {
      HarmlessFits(es[0].value, blanks);
      AllHarmlessFit(es[1..], blanks);
    }
  }

  /** A text without its quotes. */
  function Stripped(s: seq<u8>): seq<u8> {
    if s == [] then [] else (if s[0] == QUOTE then [] else [s[0]]) + Stripped(s[1..])
  }

  lemma ReadFittingByte(sh: Shell, s: seq<u8>)
    requires sh.Shell? && sh.place.InValue? && s != [] && TextFits(s, sh.quoted, false)
    ensures Read(sh, s[0]) == if s[0] == QUOTE then sh.(quoted := !sh.quoted)
                              else sh.(place := InValue(sh.place.key, sh.place.text + [s[0]]))
    ensures TextFits(s[1..], if s[0] == QUOTE then !sh.quoted else sh.quoted, false)
  {
  }

  /** Without blanks outside, all of it goes into the value. */
  lemma {:induction false} ReadFitting(sh: Shell, s: seq<u8>)
    requires sh.Shell? && sh.place.InValue? && TextFits(s, sh.quoted, false)
    ensures ReadAll(sh, s) ==
            sh.(place := InValue(sh.place.key, sh.place.text + Stripped(s)), quoted := Turned(sh.quoted, Quotes(s)))
    decreases |s|
  {
    hide Read, TextFits, Turned;
    TurnedStep(sh.quoted, Quotes(s));
    if s == [] {
      assert sh.place.text + [] == sh.place.text;
    } else {
      ReadFittingByte(sh, s);
      ReadFitting(Read(sh, s[0]), s[1..]);
      TurnedStep(sh.quoted, Quotes(s[1..]));
      if s[0] == QUOTE {
        assert Stripped(s) == Stripped(s[1..]);
      } else {
        assert sh.place.text + ([s[0]] + Stripped(s[1..])) == sh.place.text + [s[0]] + Stripped(s[1..]);
      }
    }
  }

  lemma TurnedStep(quoted: bool, n: nat)
    ensures Turned(quoted, 0) == quoted && Turned(quoted, n + 1) == Turned(!quoted, n)
  {
  }

  /** Between lines: no quote is open and the shell is ready for the next command, or one is open in a value. */
  ghost predicate IsAtLine(sh: Shell, inside: bool) {
    sh.Shell? && if inside then sh == Start(sh.made) else !sh.hasOther && sh.place.InValue? && sh.quoted
  }

  lemma LineEnds(sh: Shell, s: seq<u8>)
    requires sh.Shell? && !sh.hasOther && sh.place.InValue? && TextFits(s, sh.quoted, false)
    ensures IsAtLine(ReadAll(sh, s + [QUOTE, NEWLINE]), Turned(sh.quoted, Quotes(s)))
  {
    hide ReadAll, TextFits, Quotes;
    ReadFitting(sh, s);
    ReadConcat(sh, s, [QUOTE, NEWLINE]);
    ReadTwo(ReadAll(sh, s), QUOTE, NEWLINE);
  }

  lemma OneLine(sh: Shell, e: Entry, inside: bool)
    requires IsAtLine(sh, inside) && IsName(e.key) && TextFits(e.value, inside, false)
    ensures IsAtLine(ReadAll(sh, LineText(e)), Turned(inside, Quotes(e.value)))
  {
    hide ReadAll, TextFits, Quotes;
    if inside {
      ReadKey(sh.made, e);
      LineEnds(InLine(sh.made, e.key), e.value);
    } else {
      NamesArePlain(e.key);
      ReadHarmless(sh, e.key);
      var sh1 := ReadAll(sh, e.key);
      ReadTwo(sh1, EQUALS, QUOTE);
      ReadConcat(sh, e.key, [EQUALS, QUOTE]);
      ReadConcat(sh, e.key + [EQUALS, QUOTE], e.value + [QUOTE, NEWLINE]);
      LineEnds(ReadAll(sh1, [EQUALS, QUOTE]), e.value);
    }
  }

  lemma {:induction false} FittingLines(sh: Shell, es: seq<Entry>, inside: bool)
    requires IsAtLine(sh, inside) && NamesOnly(es) && Fits(es, inside, false)
    ensures IsAtLine(ReadAll(sh, FileOf(es)), Turned(inside, QuotesIn(es)))
    decreases |es|
  {
    hide ReadAll, TextFits, Quotes, IsName, LineText, IsAtLine;
    if es == [] {
      ReadNone(sh);
    } else {
      var line := LineText(es[0]);
      OneLine(sh, es[0], inside);
      ReadConcat(sh, line, FileOf(es[1..]));
      FittingLines(ReadAll(sh, line), es[1..], Turned(inside, Quotes(es[0].value)));
    }
  }

  /** A file with harmless text inside of its quotes, and plain text without blanks outside, is read to its end if and
      only if its values contain an even number of quotes. Otherwise it ends in an open quote. */
  lemma EvenQuotesIff(es: seq<Entry>)
    requires NamesOnly(es) && Fits(es, true, false)
    ensures Source(FileOf(es)).Complete? <==> QuotesIn(es) % 2 == 0
    ensures Source(FileOf(es)).Unterminated? <==> QuotesIn(es) % 2 == 1
  {
    hide ReadAll, FileOf, Fits, QuotesIn, NamesOnly;
    FittingLines(Start([]), es, true);
  }

  /** The entries with their quotes taken away. */
  function AllStripped(es: seq<Entry>): seq<Entry> {
    seq(|es|, i requires 0 <= i < |es| => Entry(es[i].key, Stripped(es[i].value)))
  }

  /** Every value has its quotes in pairs, harmless text in front of, between and behind the pairs, and plain text
      without blanks within them. */
  predicate IsPaired(s: seq<u8>) {
    TextFits(s, true, false) && Quotes(s) % 2 == 0
  }

  lemma ReadPaired(made: seq<Entry>, e: Entry)
    requires IsName(e.key) && IsPaired(e.value)
    ensures ReadAll(Start(made), LineText(e)) == Start(made + [Entry(e.key, Stripped(e.value))])
  {
    hide ReadAll, TextFits, Quotes;
    var sh := InLine(made, e.key);
    ReadKey(made, e);
    ReadFitting(sh, e.value);
    assert [] + Stripped(e.value) == Stripped(e.value);
    ReadConcat(sh, e.value, [QUOTE, NEWLINE]);
    ReadTwo(ReadAll(sh, e.value), QUOTE, NEWLINE);
  }

  lemma {:induction false} ReadAllPaired(made: seq<Entry>, es: seq<Entry>)
    requires NamesOnly(es) && forall i :: 0 <= i < |es| ==> IsPaired(es[i].value)
    ensures ReadAll(Start(made), FileOf(es)) == Start(made + AllStripped(es))
    decreases |es|
  {
    hide ReadAll, LineText, IsName, IsPaired, Stripped;
    if es == [] {
      ReadNone(Start(made));
      assert made + AllStripped(es) == made;
    } else {
      var first := Entry(es[0].key, Stripped(es[0].value));
      ReadPaired(made, es[0]);
      ReadConcat(Start(made), LineText(es[0]), FileOf(es[1..]));
      ReadAllPaired(made + [first], es[1..]);
      assert AllStripped(es) == [first] + AllStripped(es[1..]);
      assert made + [first] + AllStripped(es[1..]) == made + AllStripped(es);
    }
  }

  /** Values with paired quotes are read in without these quotes, and otherwise as they were published. */
  lemma PairedLoads(es: seq<Entry>)
    requires NamesOnly(es) && forall i :: 0 <= i < |es| ==> IsPaired(es[i].value)
    ensures Source(FileOf(es)) == Complete(AllStripped(es))
  {
    hide ReadAll, FileOf, IsPaired, IsName, AllStripped;
    ReadAllPaired([], es);
    assert [] + AllStripped(es) == AllStripped(es) && AllStripped(es) + [] == AllStripped(es);
  }

  // ---- one stray quote ----

  /** The shell is in the command that began behind the assignments made. */
  ghost predicate Hangs(sh: Shell, made: seq<Entry>, quoted: bool) {
    && sh.Shell? && sh.made == made && sh.quoted == quoted && !sh.place.InComment?
    && (quoted ==> sh.place.InValue? || sh.place.InOther?)
  }

  /** Plain text outside of quotes, and harmless text inside, does not end the command. */
  lemma {:induction false} HangsOn(sh: Shell, text: seq<u8>, made: seq<Entry>, quoted: bool)
    requires Hangs(sh, made, quoted) && TextFits(text, quoted, true)
    ensures Hangs(ReadAll(sh, text), made, Turned(quoted, Quotes(text)))
    decreases |text|
  {
    if text != [] {
      var quoted' := if text[0] == QUOTE then !quoted else quoted;
      assert Hangs(Read(sh, text[0]), made, quoted');
      hide Read;
      HangsOn(Read(sh, text[0]), text[1..], made, quoted');
    }
  }

  lemma HangsToEnd(sh: Shell, rest: seq<u8>, made: seq<Entry>, quoted: bool)
    requires Hangs(sh, made, quoted) && TextFits(rest, quoted, true) && !Turned(quoted, Quotes(rest))
    ensures Hangs(ReadAll(sh, rest + [QUOTE, NEWLINE]), made, true)
  {
    hide ReadAll, Quotes, TextFits;
    HangsOn(sh, rest, made, quoted);
    ReadTwo(ReadAll(sh, rest), QUOTE, NEWLINE);
    ReadConcat(sh, rest, [QUOTE, NEWLINE]);
  }

  /** The quotes of a line that follows an open quote close and open instead of opening and closing. */
  lemma HangsOverLine(sh: Shell, e: Entry, made: seq<Entry>)
    requires Hangs(sh, made, true) && IsName(e.key) && TextFits(e.value, false, true) && Quotes(e.value) % 2 == 0
    ensures Hangs(ReadAll(sh, LineText(e)), made, true)
  {
    hide ReadAll, Quotes, TextFits;
    NamesArePlain(e.key);
    PlainFits(e.key, true, true);
    HangsOn(sh, e.key, made, true);
    var sh1 := ReadAll(sh, e.key);
    ReadTwo(sh1, EQUALS, QUOTE);
    ReadConcat(sh, e.key, [EQUALS, QUOTE]);
    HangsToEnd(ReadAll(sh1, [EQUALS, QUOTE]), e.value, made, false);
    ReadConcat(sh, e.key + [EQUALS, QUOTE], e.value + [QUOTE, NEWLINE]);
  }

  lemma {:induction false} HangsOver(sh: Shell, es: seq<Entry>, made: seq<Entry>)
    requires Hangs(sh, made, true) && NamesOnly(es) && Fits(es, false, true) && QuotesIn(es) == 0
    ensures Hangs(ReadAll(sh, FileOf(es)), made, true)
    decreases |es|
  {
    hide ReadAll, TextFits, IsName, Quotes;
    if es == [] {
      ReadNone(sh);
    } else {
      var line := LineText(es[0]);
      HangsOverLine(sh, es[0], made);
      ReadConcat(sh, line, FileOf(es[1..]));
      HangsOver(ReadAll(sh, line), es[1..], made);
    }
  }

  /** One stray quote, with harmless text in front of it and plain text behind it, leaves the shell in an open quote at
      the end of the file, with the assignments of the lines before the one that has it. */
  lemma {:induction false} StrayFrom(made: seq<Entry>, es: seq<Entry>) returns (k: nat)
    requires NamesOnly(es) && Fits(es, true, true) && QuotesIn(es) == 1
    ensures k < |es| && Hangs(ReadAll(Start(made), FileOf(es)), made + es[..k], true)
    decreases |es|
  {
    hide ReadAll, TextFits, IsName, Quotes;
    var e, rest := es[0], es[1..];
    ReadConcat(Start(made), LineText(e), FileOf(rest));
    if Quotes(e.value) == 1 {
      k := 0;
      assert made + es[..k] == made;
      var sh := InLine(made, e.key);
      ReadKey(made, e);
      HangsToEnd(sh, e.value, made, true);
      HangsOver(ReadAll(sh, e.value + [QUOTE, NEWLINE]), rest, made);
    } else {
      HarmlessFits(e.value, true);
      ReadEntry(made, e);
      k := StrayFrom(made + [e], rest);
      k := k + 1;
      assert made + [e] + rest[..k - 1] == made + es[..k];
    }
  }

  lemma StrayQuote(es: seq<Entry>) returns (k: nat)
    requires NamesOnly(es) && Fits(es, true, true) && QuotesIn(es) == 1
    ensures k < |es| && Source(FileOf(es)) == Unterminated(es[..k])
  {
    hide ReadAll, FileOf, Fits, NamesOnly, QuotesIn;
    k := StrayFrom([], es);
    assert [] + es[..k] == es[..k];
  }

  // ---- files that are read to their end ----

  lemma PlainIsHarmless(s: seq<u8>)
    requires Plain(s)
    ensures Harmless(s)
  {
  }

  /** Whatever the lines before: a file that is read to its end ends with the assignment of its last line, if that line
      has a plain value. */
  lemma LastLineHolds(es: seq<Entry>, e: Entry)
    requires es != [] && IsName(e.key) && Plain(e.value)
    requires Source(FileOf(es + [e])).Complete?
    ensures var made := Source(FileOf(es + [e])).made; made != [] && made[|made| - 1] == e
  {
    hide ReadAll, FileOf, Plain, Harmless;
    var sh := ReadAll(Start([]), FileOf(es));
    FileConcat(es, [e]);
    OneLineFile(e);
    ReadConcat(Start([]), FileOf(es), LineText(e));
    BehindLines(es);
    if sh.Lost? {
      StaysLost(LineText(e));
    } else if sh.quoted {
      PlainFits(e.value, false, true);
      HangsOverLine(sh, e, sh.made);
    } else {
      PlainIsHarmless(e.value);
      ReadEntry(sh.made, e);
      assert sh.made + [e] + [] == sh.made + [e];
    }
  }

  lemma OneLineFile(e: Entry)
    ensures FileOf([e]) == LineText(e)
  {
    assert [e][1..] == [] && LineText(e) + [] == LineText(e);
  }

  lemma {:induction false} StaysLost(text: seq<u8>)
    ensures ReadAll(Lost, text) == Lost
    decreases |text|
  {
    if text != [] {
      StaysLost(text[1..]);
    }
  }
}
