/** The statistics file. dump_stats writes it as lines KEY="value", without escaping the values; the failid script
    has its shell read it in as a list of assignments. */
module StatFile {
  import opened Bytes

  const QUOTE: u8 := 34
  const HASH: u8 := 35
  const DOLLAR: u8 := 36
  const EQUALS: u8 := 61
  const BACKSLASH: u8 := 92
  const UNDERSCORE: u8 := 95
  const BACKTICK: u8 := 96

  // ---- what is written ----

  datatype Entry = Entry(key: seq<u8>, value: seq<u8>)

  /** One line of the file: fprintf("KEY=\"%s\"\n"). */
  function LineText(e: Entry): seq<u8> {
    e.key + [EQUALS, QUOTE] + (e.value + [QUOTE, NEWLINE])
  }

  function FileOf(es: seq<Entry>): seq<u8> {
    if es == [] then [] else LineText(es[0]) + FileOf(es[1..])
  }

  /** The value of a shell variable after the assignments es. */
  function ValueOf(es: seq<Entry>, key: seq<u8>): Option<seq<u8>> {
    if es == [] then None
    else if es[|es| - 1].key == key then Some(es[|es| - 1].value)
    else ValueOf(es[..|es| - 1], key)
  }

  /** A line is KEY="value" and a newline. */
  lemma LineIs(e: Entry) returns (middle: seq<u8>, end: seq<u8>)
    ensures IsText(middle, "=\"") && IsText(end, "\"\n") && LineText(e) == e.key + middle + e.value + end
  {
    middle, end := [EQUALS, QUOTE], [QUOTE, NEWLINE];
  }

  // ---- numbers ----

  /** %d of a number that is not negative. */
  function Decimal(n: nat): seq<u8> {
    (if n < 10 then [] else Decimal(n / 10)) + [48 + n % 10]
  }

  function Signed(n: int): seq<u8> {
    if n < 0 then [45] + Decimal(-n) else Decimal(n)
  }

  predicate IsDigit(b: u8) {
    48 <= b < 58
  }

  /** The number a text of decimal digits stands for. */
  function Number(s: seq<u8>): Option<nat> {
    if s == [] || !IsDigit(s[|s| - 1]) then None
    else if |s| == 1 then Some(s[0] - 48)
    else
      match Number(s[..|s| - 1])
      case None => None
      case Some(n) => Some(10 * n + s[|s| - 1] - 48)
  }

  lemma {:induction false} DecimalReadsBack(n: nat)
    ensures Decimal(n) != [] && Number(Decimal(n)) == Some(n)
  {
    if n >= 10 {
      DecimalReadsBack(n / 10);
      assert Decimal(n)[..|Decimal(n)| - 1] == Decimal(n / 10);
    }
  }

  /** Reading a number: a digit is its value, and one digit more is ten times as much and that digit. */
  lemma NumberIs(s: seq<u8>, b: u8)
    requires '0' as int <= b as int <= '9' as int
    ensures Number([b]) == Some(b - '0' as int)
    ensures forall n :: s != [] && Number(s) == Some(n) ==> Number(s + [b]) == Some(10 * n + b - '0' as int)
  {
    assert s != [] ==> (s + [b])[..|s + [b]| - 1] == s;
  }

  /** No zeros in front. */
  lemma {:induction false} DecimalIsShort(n: nat)
    ensures |Decimal(n)| > 1 ==> Decimal(n)[0] as int != '0' as int
    ensures |Decimal(n)| == 1 <==> n < 10
  {
    if n >= 10 {
      DecimalIsShort(n / 10);
      DecimalDigits(n / 10);
      assert |Decimal(n / 10)| == 1 ==> Decimal(n / 10) == [48 + n / 10];
    }
  }

  /** A negative number has a minus sign in front. */
  lemma SignedIs(n: int)
    ensures n >= 0 ==> Signed(n) == Decimal(n)
    ensures n < 0 ==> Signed(n)[0] as int == '-' as int && Signed(n)[1..] == Decimal(-n)
  {
  }

  lemma DecimalDigits(n: nat)
    ensures Decimal(n) != [] && forall k :: 0 <= k < |Decimal(n)| ==> IsDigit(Decimal(n)[k])
  {
  }

  // ---- bytes ----

  /** A byte that may stand in a name of a shell variable. */
  predicate IsNameByte(b: u8) {
    65 <= b <= 90 || 97 <= b <= 122 || b == UNDERSCORE || IsDigit(b)
  }

  /** A proper name of a shell variable. */
  predicate IsName(s: seq<u8>) {
    s != [] && !IsDigit(s[0]) && forall k :: 0 <= k < |s| ==> IsNameByte(s[k])
  }

  predicate IsWhite(b: u8) {
    b == SPACE || b == TAB
  }

  /** A byte that means itself between quotes. */
  predicate IsHarmless(b: u8) {
    b != NUL && b != QUOTE && b != DOLLAR && b != BACKSLASH && b != BACKTICK
  }

  /** A byte that means itself outside of quotes, too: letters, digits and _ % + , - . / : = @ or that separates
      words there. */
  predicate IsPlain(b: u8) {
    IsNameByte(b) || IsWhite(b) || b == 37 || (43 <= b <= 47) || b == 58 || b == EQUALS || b == 64
  }

  /** The bytes that are special, and those that are plain. */
  lemma BytesAre(b: u8)
    ensures IsHarmless(b) <==> b != 0 && b as int !in {'"' as int, '$' as int, '\\' as int, '`' as int}
    ensures IsPlain(b) <==>
      || 'A' as int <= b <= 'Z' as int || 'a' as int <= b <= 'z' as int || '0' as int <= b <= '9' as int
      || b as int in {'_' as int, ' ' as int, '\t' as int, '%' as int, '+' as int, ',' as int, '-' as int, '.' as int}
      || b as int in {'/' as int, ':' as int, '=' as int, '@' as int}
  {
  }

  ghost predicate Harmless(s: seq<u8>) {
    forall k :: 0 <= k < |s| ==> IsHarmless(s[k])
  }

  ghost predicate HarmlessOrQuote(s: seq<u8>) {
    forall k :: 0 <= k < |s| ==> IsHarmless(s[k]) || s[k] == QUOTE
  }

  /** The number of quotes in a text. */
  function Quotes(s: seq<u8>): nat {
    if s == [] then 0 else (if s[0] == QUOTE then 1 else 0) + Quotes(s[1..])
  }

  /** The number of quotes in the values. */
  function QuotesIn(es: seq<Entry>): nat {
    if es == [] then 0 else Quotes(es[0].value) + QuotesIn(es[1..])
  }

  predicate NamesOnly(es: seq<Entry>) {
    forall i :: 0 <= i < |es| ==> IsName(es[i].key)
  }

  ghost predicate AllHarmless(es: seq<Entry>) {
    forall i :: 0 <= i < |es| ==> Harmless(es[i].value)
  }

  ghost predicate AllHarmlessOrQuote(es: seq<Entry>) {
    forall i :: 0 <= i < |es| ==> HarmlessOrQuote(es[i].value)
  }

  // ---- what the shell makes of it ----

  /** Where in a command the shell is: between words, in a word that may become an assignment, in the value of
      one, in any other word, or in a comment. */
  datatype Place = Between | InName(text: seq<u8>) | InValue(key: seq<u8>, text: seq<u8>) | InOther | InComment

  /** The shell on its way through a text: the assignments made by the commands behind it, the assignments and other
      words of the command it is in, its place, and whether a quote is open. Lost stands for text beyond this
      model: dollar signs, backquotes, backslashes and NULs; outside of double quotes also single quotes, operators,
      patterns, tildes, braces, and bytes that are neither plain nor a number sign; and commands, that is words that
      are no assignments. */
  datatype Shell =
    | Lost
    | Shell(made: seq<Entry>, pending: seq<Entry>, hasOther: bool, place: Place, quoted: bool)

  /** The end of a word. */
  function WordEnd(sh: Shell): Shell
    requires sh.Shell?
  {
    match sh.place
    case Between => sh
    case InComment => sh.(place := Between)
    case InValue(key, text) => sh.(pending := sh.pending + [Entry(key, text)], place := Between)
    case _ => sh.(hasOther := true, place := Between)
  }

  /** The end of a command. Without other words, the assignments take effect. */
  function CommandEnd(sh: Shell): Shell
    requires sh.Shell?
  {
    var end := WordEnd(sh);
    if end.hasOther then Lost else Shell(end.made + end.pending, [], false, Between, false)
  }

  /** A byte of a word, given that it means itself. */
  function WordByte(place: Place, b: u8): Place {
    match place
    case Between => if IsNameByte(b) && !IsDigit(b) then InName([b]) else InOther
    case InName(text) =>
      if b == EQUALS then InValue(text, []) else if IsNameByte(b) then InName(text + [b]) else InOther
    case InValue(key, text) => InValue(key, text + [b])
    case _ => place
  }

  function QuoteOpens(place: Place): Place {
    if place.InValue? then place else InOther
  }

  function Read(sh: Shell, b: u8): Shell {
    if sh.Lost? then Lost
    else if sh.quoted then
      if b == QUOTE then sh.(quoted := false)
      else if IsHarmless(b) then sh.(place := WordByte(sh.place, b))
      else Lost
    else if b == NEWLINE then CommandEnd(sh)
    else if sh.place.InComment? then if b == NUL then Lost else sh
    else if b == QUOTE then sh.(place := QuoteOpens(sh.place), quoted := true)
    else if IsWhite(b) then WordEnd(sh)
    else if b == HASH && sh.place.Between? then sh.(place := InComment)
    else if IsPlain(b) || b == HASH then sh.(place := WordByte(sh.place, b))
    else Lost
  }

  function ReadAll(sh: Shell, text: seq<u8>): Shell
    decreases |text|
  {
    if text == [] then sh else ReadAll(Read(sh, text[0]), text[1..])
  }

  /** How reading a file in ends: with all its assignments made; with those of the commands before a quote that is
      never closed; or beyond this model. */
  datatype Load = Complete(made: seq<Entry>) | Unterminated(made: seq<Entry>) | Foreign

  function Start(made: seq<Entry>): Shell {
    Shell(made, [], false, Between, false)
  }

  function AtEnd(sh: Shell): Load {
    if sh.Lost? then Foreign
    else if sh.quoted then Unterminated(sh.made)
    else
      var end := CommandEnd(sh);
      if end.Lost? then Foreign else Complete(end.made)
  }

  /** Reading a file in. */
  function Source(text: seq<u8>): Load {
    AtEnd(ReadAll(Start([]), text))
  }

  // ---- reading on ----

  lemma {:induction false} ReadConcat(sh: Shell, a: seq<u8>, b: seq<u8>)
    ensures ReadAll(sh, a + b) == ReadAll(ReadAll(sh, a), b)
    decreases |a|
  {
    if a == [] {
      assert a + b == b;
    } else {
      assert (a + b)[1..] == a[1..] + b;
      ReadConcat(Read(sh, a[0]), a[1..], b);
    }
  }

  lemma ReadTwo(sh: Shell, a: u8, b: u8)
    ensures ReadAll(sh, [a, b]) == Read(Read(sh, a), b)
  {
    assert [a, b][1..] == [b] && [b][1..] == [];
    assert ReadAll(Read(sh, a), [b]) == ReadAll(Read(Read(sh, a), b), []);
  }

  lemma {:induction false} ReadName(sh: Shell, done: seq<u8>, key: seq<u8>)
    requires sh.Shell? && !sh.quoted && IsName(done + key)
    requires sh.place == if done == [] then Between else InName(done)
    ensures ReadAll(sh, key) == sh.(place := if done + key == [] then Between else InName(done + key))
    decreases |key|
  {
    if key == [] {
      assert done + key == done;
    } else {
      assert key[0] == (done + key)[|done|];
      assert done + [key[0]] + key[1..] == done + key;
      ReadName(Read(sh, key[0]), done + [key[0]], key[1..]);
    }
  }

  /** A harmless value between quotes is taken as it is. */
  lemma {:induction false} ReadHarmless(sh: Shell, value: seq<u8>)
    requires sh.Shell? && sh.quoted && sh.place.InValue? && Harmless(value)
    ensures ReadAll(sh, value) == sh.(place := InValue(sh.place.key, sh.place.text + value))
    decreases |value|
  {
    if value == [] {
      assert sh.place.text + value == sh.place.text;
    } else {
      assert sh.place.text + [value[0]] + value[1..] == sh.place.text + value;
      ReadHarmless(Read(sh, value[0]), value[1..]);
    }
  }

  /** The shell has read the key of a line, and the quote behind it. */
  function InLine(made: seq<Entry>, key: seq<u8>): Shell {
    Shell(made, [], false, InValue(key, []), true)
  }

  lemma ReadKey(made: seq<Entry>, e: Entry)
    requires IsName(e.key)
    ensures ReadAll(Start(made), LineText(e)) == ReadAll(InLine(made, e.key), e.value + [QUOTE, NEWLINE])
  {
    hide ReadAll;
    var sh := Start(made);
    assert [] + e.key == e.key;
    ReadName(sh, [], e.key);
    ReadConcat(sh, e.key, [EQUALS, QUOTE]);
    ReadTwo(sh.(place := InName(e.key)), EQUALS, QUOTE);
    ReadConcat(sh, e.key + [EQUALS, QUOTE], e.value + [QUOTE, NEWLINE]);
  }

  /** A line with a harmless value is the assignment it was written for. */
  lemma ReadEntry(made: seq<Entry>, e: Entry)
    requires IsName(e.key) && Harmless(e.value)
    ensures ReadAll(Start(made), LineText(e)) == Start(made + [e])
  {
    hide ReadAll;
    var sh := InLine(made, e.key);
    ReadKey(made, e);
    ReadHarmless(sh, e.value);
    assert [] + e.value == e.value;
    ReadConcat(sh, e.value, [QUOTE, NEWLINE]);
    ReadTwo(sh.(place := InValue(e.key, e.value)), QUOTE, NEWLINE);
  }

  lemma {:induction false} ReadEntries(made: seq<Entry>, es: seq<Entry>)
    requires NamesOnly(es) && AllHarmless(es)
    ensures ReadAll(Start(made), FileOf(es)) == Start(made + es)
    decreases |es|
  {
    hide ReadAll, LineText, Harmless, IsName;
    if es == [] {
      ReadNone(Start(made));
      assert made + es == made;
    } else {
      ReadEntry(made, es[0]);
      ReadConcat(Start(made), LineText(es[0]), FileOf(es[1..]));
      ReadEntries(made + [es[0]], es[1..]);
      assert made + [es[0]] + es[1..] == made + es;
    }
  }

  lemma ReadNone(sh: Shell)
    ensures ReadAll(sh, []) == sh
  {
  }

  /** The round trip: if no published value contains a quote, a dollar sign, a backquote or a backslash, reading the
      file in makes exactly the assignments that were published, in order. */
  lemma RoundTrip(es: seq<Entry>)
    requires NamesOnly(es) && AllHarmless(es)
    ensures Source(FileOf(es)) == Complete(es)
  {
    hide ReadAll, FileOf;
    ReadEntries([], es);
    assert [] + es == es && es + [] == es;
  }

  // ---- the last line ----

  lemma {:induction false} FileConcat(a: seq<Entry>, b: seq<Entry>)
    ensures FileOf(a + b) == FileOf(a) + FileOf(b)
    decreases |a|
  {
    hide LineText;
    if a == [] {
      assert a + b == b;
    } else {
      assert (a + b)[1..] == a[1..] + b;
      FileConcat(a[1..], b);
    }
  }

  lemma {:induction false} FileEnds(es: seq<Entry>)
    requires es != []
    ensures FileOf(es) != [] && FileOf(es)[|FileOf(es)| - 1] == NEWLINE
    decreases |es|
  {
    if |es| > 1 {
      FileEnds(es[1..]);
    }
  }

  /** A quote is open only in a value or another word. */
  ghost predicate IsSettled(sh: Shell) {
    sh.Shell? && sh.quoted ==> sh.place.InValue? || sh.place.InOther?
  }

  lemma {:induction false} StaysSettled(sh: Shell, text: seq<u8>)
    requires IsSettled(sh)
    ensures IsSettled(ReadAll(sh, text))
    decreases |text|
  {
    if text != [] {
      assert IsSettled(Read(sh, text[0]));
      hide Read;
      StaysSettled(Read(sh, text[0]), text[1..]);
    }
  }

  /** At the end of a line the shell is lost, in an open quote, or ready for the next command. */
  lemma BehindLines(es: seq<Entry>)
    requires es != []
    ensures var sh := ReadAll(Start([]), FileOf(es));
      IsSettled(sh) && (sh.Lost? || sh.quoted || sh == Start(sh.made))
  {
    var text := FileOf(es);
    FileEnds(es);
    hide FileOf;
    var n := |text| - 1;
    assert text == text[..n] + [NEWLINE];
    StaysSettled(Start([]), text);
    ReadConcat(Start([]), text[..n], [NEWLINE]);
    ReadOne(ReadAll(Start([]), text[..n]), NEWLINE);
  }

  lemma ReadOne(sh: Shell, b: u8)
    ensures ReadAll(sh, [b]) == Read(sh, b)
  {
    ReadNone(Read(sh, b));
    assert [b][1..] == [];
  }
}
