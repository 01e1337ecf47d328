/** breakin.c: find_burnin_tests registers the tests of a directory, except those a comma-separated list names.
    strtok_r takes the list apart in place, so only the first directory entry sees all of it. */
module DisableList {
  import opened Bytes
  import opened Scheduler
  import opened Selection

  // ---- the list ----

  /** How many commas s starts with. */
  function Commas(s: seq<u8>): (n: nat)
    ensures n <= |s| && (n < |s| ==> s[n] != COMMA)
    ensures forall k :: 0 <= k < n ==> s[k] == COMMA
  {
    if s != [] && s[0] == COMMA then 1 + Commas(s[1..]) else 0
  }

  /** Where the name that starts at p ends. */
  function NameEnd(s: seq<u8>, p: nat): (n: nat)
    requires p <= |s|
    ensures p <= n <= |s| && (n < |s| ==> s[n] == COMMA)
    ensures forall k :: p <= k < n ==> s[k] != COMMA
    decreases |s| - p
  {
    if p < |s| && s[p] != COMMA then NameEnd(s, p + 1) else p
  }

  /** Where the first name of a list ends. */
  function FirstEnd(s: seq<u8>): (n: nat)
    ensures Commas(s) <= n <= |s| && (Commas(s) < |s| ==> Commas(s) < n) && (n < |s| ==> s[n] == COMMA)
  {
    NameEnd(s, Commas(s))
  }

  /** The names of a comma-separated list, empty ones left out. */
  function Names(s: seq<u8>): seq<seq<u8>>
    decreases |s|
  {
    if Commas(s) == |s| then [] else [s[Commas(s)..FirstEnd(s)]] + Names(s[FirstEnd(s)..])
  }

  lemma CommasAre(s: seq<u8>, n: nat)
    requires n <= |s| && (n < |s| ==> s[n] != COMMA)
    requires forall k :: 0 <= k < n ==> s[k] == COMMA
    ensures Commas(s) == n
  {
  }

  lemma NameEndIs(s: seq<u8>, p: nat, n: nat)
    requires p <= n <= |s| && (n < |s| ==> s[n] == COMMA)
    requires forall k :: p <= k < n ==> s[k] != COMMA
    ensures NameEnd(s, p) == n
  {
  }

  /** A list cut off behind its first name holds just that name. */
  lemma CutBehindFirst(s: seq<u8>)
    requires Commas(s) < |s|
    ensures Names(s[..FirstEnd(s)]) == [s[Commas(s)..FirstEnd(s)]]
  {
    hide Names, Commas, NameEnd;
    var c, e := Commas(s), FirstEnd(s);
    var cut := s[..e];
    CommasAre(cut, c);
    NameEndIs(cut, c, e);
    assert FirstEnd(cut) == e;
    hide FirstEnd;
    NamesStep(cut);
    NamesStep([]);
    assert cut[c..e] == s[c..e] && cut[e..] == [] && Names([]) == [];
    assert Names(cut) == [cut[c..e]] + Names(cut[e..]);
  }

  lemma NamesStep(s: seq<u8>)
    ensures Names(s) == if Commas(s) == |s| then [] else [s[Commas(s)..FirstEnd(s)]] + Names(s[FirstEnd(s)..])
  {
  }

  /** A comma in front changes nothing. */
  lemma CommaInFront(s: seq<u8>)
    requires s != [] && s[0] == COMMA
    ensures Names(s) == Names(s[1..])
  {
    hide Names, Commas, NameEnd;
    var t, c, e := s[1..], Commas(s), FirstEnd(s);
    assert forall k :: 0 <= k < |t| ==> t[k] == s[k + 1];
    CommasAre(t, c - 1);
    if c < |s| {
      NameEndIs(t, c - 1, e - 1);
      assert t[c - 1..e - 1] == s[c..e] && t[e - 1..] == s[e..];
    }
    NamesStep(s);
    NamesStep(t);
  }

  /** name is the stretch of s from i to j, without commas, and bounded by commas or the ends of s. */
  ghost predicate IsNameAt(s: seq<u8>, i: nat, j: nat, name: seq<u8>) {
    && i < j <= |s| && name == s[i..j] && (forall k :: i <= k < j ==> s[k] as int != ',' as int)
    && (i == 0 || s[i - 1] as int == ',' as int) && (j == |s| || s[j] as int == ',' as int)
  }

  /** The names of a list are the stretches between its commas that are not empty. */
  lemma NamesIff(s: seq<u8>, name: seq<u8>)
    ensures name in Names(s) <==> exists i: nat, j: nat :: IsNameAt(s, i, j, name)
  {
    hide Names, IsNameAt;
    if name in Names(s) {
      var i, j := NameIsThere(s, name);
    }
    forall i: nat, j: nat | IsNameAt(s, i, j, name)
      ensures name in Names(s)
    {
      NameIsListed(s, i, j, name);
    }
  }

  lemma {:induction false} NameIsThere(s: seq<u8>, name: seq<u8>) returns (i: nat, j: nat)
    requires name in Names(s)
    ensures IsNameAt(s, i, j, name)
    decreases |s|
  {
    hide Names, Commas, FirstEnd, IsNameAt;
    HeadOrTail(s, name);
    FirstNameIs(s);
    NamesStep(s);
    if name == s[Commas(s)..FirstEnd(s)] {
      i, j := Commas(s), FirstEnd(s);
    } else {
      i, j := NameIsThere(s[FirstEnd(s)..], name);
      TailName(s, FirstEnd(s), i, j, name);
      i, j := FirstEnd(s) + i, FirstEnd(s) + j;
    }
  }

  lemma {:induction false} NameIsListed(s: seq<u8>, i: nat, j: nat, name: seq<u8>)
    requires IsNameAt(s, i, j, name)
    ensures name in Names(s)
    decreases |s|
  {
    hide Names, Commas, FirstEnd;
    SomeName(s, i, j, name);
    HeadOrTail(s, name);
    if i < FirstEnd(s) {
      OnlyFirst(s, i, j, name);
    } else {
      NameInTail(s, FirstEnd(s), i, j, name);
      NameIsListed(s[FirstEnd(s)..], i - FirstEnd(s), j - FirstEnd(s), name);
    }
  }

  lemma SomeName(s: seq<u8>, i: nat, j: nat, name: seq<u8>)
    requires IsNameAt(s, i, j, name)
    ensures Commas(s) < |s|
  {
    hide Commas;
    assert s[i] != COMMA;
  }

  lemma HeadOrTail(s: seq<u8>, name: seq<u8>)
    ensures name in Names(s) <==>
      Commas(s) < |s| && (name == s[Commas(s)..FirstEnd(s)] || name in Names(s[FirstEnd(s)..]))
  {
    hide Names, Commas, FirstEnd;
    NamesStep(s);
  }

  lemma TailName(s: seq<u8>, e: nat, i: nat, j: nat, name: seq<u8>)
    requires e <= |s| && (e < |s| ==> s[e] == COMMA) && IsNameAt(s[e..], i, j, name)
    ensures IsNameAt(s, e + i, e + j, name)
  {
    assert s[e..][i..j] == s[e + i..e + j];
    assert forall k :: e + i <= k < e + j ==> s[k] == s[e..][k - e];
  }

  lemma NameInTail(s: seq<u8>, e: nat, i: nat, j: nat, name: seq<u8>)
    requires e <= i && (e < |s| ==> s[e] == COMMA) && IsNameAt(s, i, j, name)
    ensures IsNameAt(s[e..], i - e, j - e, name)
  {
    assert s[e..][i - e..j - e] == s[i..j];
    assert forall k :: i - e <= k < j - e ==> s[e..][k] == s[e + k];
    assert i > 0 ==> s[i - 1] as int == ',' as int;
  }

  /** The first of them has nothing but commas in front. */
  lemma FirstNameIs(s: seq<u8>)
    requires Commas(s) < |s|
    ensures Names(s) != [] && IsNameAt(s, Commas(s), FirstEnd(s), Names(s)[0])
    ensures forall k :: 0 <= k < Commas(s) ==> s[k] as int == ',' as int
  {
    NamesStep(s);
    hide Names, Commas;
  }

  lemma OnlyFirst(s: seq<u8>, i: nat, j: nat, name: seq<u8>)
    requires Commas(s) < |s| && i < FirstEnd(s) && IsNameAt(s, i, j, name)
    ensures i == Commas(s) && j == FirstEnd(s)
  {
    hide Commas;
    var c, e := Commas(s), NameEnd(s, Commas(s));
    hide NameEnd;
    assert s[i] != COMMA;
    assert e < |s| ==> s[e] == COMMA;
  }

  // ---- strtok_r ----

  ghost predicate IsTerminated(m: seq<u8>, p: nat) {
    p <= |m| && p + StrLen(m, p) < |m|
  }

  /** strtok_r(p, ",", &save): the next name from p on. The comma behind it becomes a NUL. */
  method StrtokR(a: array<u8>, p: nat) returns (token: Option<nat>, save: nat)
    requires IsTerminated(a[..], p)
    modifies a
    ensures var s := CStr(old(a[..]), p);
      if Commas(s) == |s| then token == None && a[..] == old(a[..])
      else
        var end := p + FirstEnd(s);
        && token == Some(p + Commas(s)) && a[..] == old(a[..])[end := NUL]
        && save == if FirstEnd(s) < |s| then end + 1 else end
  {
    hide StrLen, Commas, NameEnd;
    ghost var m := a[..];
    ghost var s := CStr(m, p);
    assert m[p + |s|] == NUL && forall k :: 0 <= k < |s| ==> m[p + k] == s[k];
    var t := p;
    while a[t] == COMMA
      invariant p <= t <= p + |s| && forall k :: 0 <= k < t - p ==> s[k] == COMMA
      decreases p + |s| - t
    {
      assert s[t - p] == a[t];
      t := t + 1;
    }
    assert t - p < |s| ==> s[t - p] == a[t];
    CommasAre(s, t - p);
    if a[t] == NUL {
      return None, t;
    }
    var e := t;
    while a[e] != NUL && a[e] != COMMA
      invariant t <= e <= p + |s| && forall k :: t - p <= k < e - p ==> s[k] != COMMA
      decreases p + |s| - e
    {
      assert s[e - p] == a[e];
      e := e + 1;
    }
    assert e - p < |s| ==> s[e - p] == a[e];
    NameEndIs(s, t - p, e - p);
    if a[e] == NUL {
      assert m[e := NUL] == m;
      return Some(t), e;
    }
    a[e] := NUL;
    return Some(t), e + 1;
  }

  /** What strtok_r leaves: the name where it was, and the list cut off behind it. */
  lemma TokenCut(m: seq<u8>, p: nat, m': seq<u8>)
    requires IsTerminated(m, p) && m' == m[p + FirstEnd(CStr(m, p)) := NUL]
    ensures var s := CStr(m, p);
      && IsTerminated(m', p + Commas(s)) && CStr(m', p + Commas(s)) == s[Commas(s)..FirstEnd(s)]
      && IsTerminated(m', p) && CStr(m', p) == s[..FirstEnd(s)]
  {
    hide StrLen, CStr, Commas, FirstEnd;
    var s := CStr(m, p);
    StringIn(m, m', p, s, Commas(s), FirstEnd(s));
    StringIn(m, m', p, s, 0, FirstEnd(s));
  }

  /** And the rest of the list. */
  lemma RestOfList(m: seq<u8>, p: nat, m': seq<u8>, save: nat)
    requires IsTerminated(m, p) && Commas(CStr(m, p)) < |CStr(m, p)|
    requires m' == m[p + FirstEnd(CStr(m, p)) := NUL]
    requires save == p + FirstEnd(CStr(m, p)) + if FirstEnd(CStr(m, p)) < |CStr(m, p)| then 1 else 0
    ensures var s := CStr(m, p);
      && IsTerminated(m', save) && |CStr(m', save)| < |s|
      && Names(s) == [s[Commas(s)..FirstEnd(s)]] + Names(CStr(m', save))
      && (save == p + FirstEnd(s) ==> CStr(m', save) == [])
  {
    hide Names, StrLen, CStr, Commas, FirstEnd;
    var s := CStr(m, p);
    var e := FirstEnd(s);
    StringIn(m, m', p, s, save - p, |s|);
    NamesStep(s);
    if e < |s| {
      NamesBehind(s, e);
    } else {
      assert s[e..] == s[e..|s|];
    }
  }

  lemma NamesBehind(s: seq<u8>, e: nat)
    requires e < |s| && s[e] == COMMA
    ensures Names(s[e..]) == Names(s[e + 1..|s|])
  {
    assert s[e + 1..|s|] == s[e..][1..] && s[e..][0] == s[e];
    CommaInFront(s[e..]);
  }

  /** A stretch of a string with a NUL put behind it, or the one that was there, is a string. */
  lemma StringIn(m: seq<u8>, m': seq<u8>, p: nat, s: seq<u8>, lo: nat, hi: nat)
    requires IsTerminated(m, p) && s == CStr(m, p) && lo <= hi <= |s| && |m'| == |m|
    requires m'[p + hi] == NUL && forall k :: p + lo <= k < p + hi ==> m'[k] == m[k]
    ensures IsTerminated(m', p + lo) && CStr(m', p + lo) == s[lo..hi]
  {
    assert forall k :: p <= k < p + |s| ==> m[k] == s[k - p] != NUL;
    StrLenIs(m', p + lo, hi - lo);
  }

  // ---- registering the tests ----

  /** What is left of the list when entry number k is read. */
  function SeenBy(s: seq<u8>, k: nat): (r: seq<u8>)
    ensures k == 0 ==> r == s
  {
    if k == 0 || Commas(s) == |s| then s else s[..FirstEnd(s)]
  }

  /** The inner loop of find_burnin_tests: is name on the list? Looking costs the list all but its first name. */
  method IsListed(a: array<u8>, name: seq<u8>) returns (listed: bool)
    requires IsTerminated(a[..], 0)
    modifies a
    ensures listed <==> name in Names(CStr(old(a[..]), 0))
    ensures IsTerminated(a[..], 0)
    ensures CStr(a[..], 0) == SeenBy(CStr(old(a[..]), 0), 1)
  {
    hide Names, SeenBy;
    ghost var s0 := CStr(a[..], 0);
    ghost var done: seq<seq<u8>> := [];
    var p: nat := 0;
    while true
      invariant IsTerminated(a[..], p) && IsTerminated(a[..], 0)
      invariant Names(s0) == done + Names(CStr(a[..], p)) && name !in done
      invariant CStr(a[..], 0) == if p == 0 then s0 else SeenBy(s0, 1)
      invariant p > 0 ==> |CStr(a[..], 0)| < p || CStr(a[..], p) == []
      decreases |CStr(a[..], p)|
    {
      ghost var m := a[..];
      var token, save := NextName(a, p);
      if token == None {
        return false;
      }
      if p > 0 {
        CStrSame(m, a[..], 0);
      }
      if token.value == name {
        return true;
      }
      ghost var rest := Names(CStr(a[..], save));
      assert (done + [token.value]) + rest == done + ([token.value] + rest);
      done := done + [token.value];
      p := save;
    }
  }

  /** One call of strtok_r with the string it points to. */
  method NextName(a: array<u8>, p: nat) returns (token: Option<seq<u8>>, save: nat)
    requires IsTerminated(a[..], p)
    modifies a
    ensures IsTerminated(a[..], p) && CStr(a[..], p) == SeenBy(CStr(old(a[..]), p), 1)
    ensures forall k :: 0 <= k < p ==> a[k] == old(a[k])
    ensures CStr(old(a[..]), p) == [] ==> token == None
    ensures token == None ==> Names(CStr(old(a[..]), p)) == [] && a[..] == old(a[..])
    ensures token.Some? ==>
      && IsTerminated(a[..], save) && Names(CStr(old(a[..]), p)) == [token.value] + Names(CStr(a[..], save))
      && |CStr(a[..], save)| < |CStr(old(a[..]), p)| && p < save
      && (|CStr(a[..], p)| < save - p || CStr(a[..], save) == [])
  {
    hide Names, StrLen, CStr, Commas, FirstEnd;
    ghost var m := a[..];
    NamesStep(CStr(m, p));
    var at, next := StrtokR(a, p);
    if at == None {
      return None, p;
    }
    TokenCut(m, p, a[..]);
    RestOfList(m, p, a[..], next);
    return Some(CStr(a[..], at.value)), next;
  }

  predicate IsDotEntry(name: seq<u8>) {
    name != [] && name[0] == DOT
  }

  /** Entry number k is held against the whole list if it is the first, and else against its first name. */
  predicate IsExcluded(list: seq<seq<u8>>, k: nat, name: seq<u8>) {
    name in if k == 0 || list == [] then list else [list[0]]
  }

  predicate Registers(list: seq<seq<u8>>, k: nat, name: seq<u8>) {
    !IsDotEntry(name) && !IsExcluded(list, k, name)
  }

  /** The names registered for a directory, in its order. */
  function Registered(list: seq<seq<u8>>, entries: seq<seq<u8>>): seq<seq<u8>> {
    if entries == [] then []
    else
      var n := |entries| - 1;
      Registered(list, entries[..n]) + if Registers(list, n, entries[n]) then [entries[n]] else []
  }

  /** The documented meaning of the option: every listed test is left out. */
  function Documented(list: seq<seq<u8>>, entries: seq<seq<u8>>): seq<seq<u8>> {
    if entries == [] then []
    else
      var n := |entries| - 1;
      Documented(list, entries[..n]) + if IsDotEntry(entries[n]) || entries[n] in list then [] else [entries[n]]
  }

  /** The path a test is launched by: snprintf("%s/%s") into a field. */
  function PathOf(place: seq<u8>, name: seq<u8>): (r: seq<u8>)
    ensures |r| == if |place| + 1 + |name| < 8192 then |place| + 1 + |name| else 8191
    ensures forall k :: 0 <= k < |r| ==>
      r[k] == if k < |place| then place[k] else if k == |place| then '/' as int else name[k - |place| - 1]
  {
    var path := place + Ascii("/") + name;
    if |path| < BUFSIZ then path else path[..BUFSIZ - 1]
  }

  /** A test that was found in place is registered with clean counters, ready to be launched. */
  predicate IsFreshScript(place: seq<u8>, s: Script) {
    s == Script(s.name, PathOf(place, s.name), [], 0, 0, 0, false, 0, 0)
  }

  function NamesOf(scripts: seq<Script>): seq<seq<u8>> {
    seq(|scripts|, i requires 0 <= i < |scripts| => scripts[i].name)
  }

  /** find_burnin_tests: None stands for a directory that cannot be opened, place is where it lies. */
  method FindBurninTests(disabled: array<u8>, place: seq<u8>, dir: Option<seq<seq<u8>>>)
    returns (scripts: seq<Script>)
    requires IsTerminated(disabled[..], 0)
    modifies disabled
    ensures NamesOf(scripts) ==
      if dir.None? then [] else Registered(Names(CStr(old(disabled[..]), 0)), dir.value)
    ensures forall i :: 0 <= i < |scripts| ==> IsFreshScript(place, scripts[i])
    ensures dir.Some? ==>
      IsSelection(dir.value, Kept(Names(CStr(old(disabled[..]), 0)), dir.value), NamesOf(scripts))
    ensures forall i :: 0 <= i < |scripts| ==>
      var c := scripts[i];
      && c.path == PathOf(place, c.name) && c.lastMsg == [] && !c.hasStream
      && c.lastResult == c.running == c.passCount == c.failCount == 0
  {
    scripts := [];
    if dir.None? {
      return;
    }
    hide Names, CStr, SeenBy, IsExcluded, PathOf, StrLen, IsTerminated, Kept, IsSelection;
    var entries := dir.value;
    ghost var s := CStr(disabled[..], 0);
    for k := 0 to |entries|
      invariant IsTerminated(disabled[..], 0)
      invariant CStr(disabled[..], 0) == SeenBy(s, k)
      invariant NamesOf(scripts) == Registered(Names(s), entries[..k])
      invariant forall i :: 0 <= i < |scripts| ==> IsFreshScript(place, scripts[i])
    {
      ListSeen(s, k, entries[k]);
      assert entries[..k + 1][..k] == entries[..k];
      var listed := IsListed(disabled, entries[k]);
      if listed {
        continue;
      }
      if !(entries[k] != [] && entries[k][0] == DOT) {
        scripts := scripts + [Script(entries[k], PathOf(place, entries[k]), [], 0, 0, 0, false, 0, 0)];
      }
    }
    assert entries[..|entries|] == entries;
    RegisteredAre(Names(s), entries);
  }

  /** Which entries are registered: those that neither start with a dot nor are on the list, of which all entries but
      the first see the first name only. */
  function Kept(list: seq<seq<u8>>, entries: seq<seq<u8>>): seq<bool> {
    seq(|entries|, k requires 0 <= k < |entries| =>
      && (entries[k] == [] || entries[k][0] as int != '.' as int)
      && (if k == 0 then entries[k] !in list else list == [] || entries[k] != list[0]))
  }

  lemma {:induction false} RegisteredAre(list: seq<seq<u8>>, entries: seq<seq<u8>>)
    ensures IsSelection(entries, Kept(list, entries), Registered(list, entries))
  {
    hide IsSelection;
    if entries == [] {
      NoneSelected<seq<u8>>();
      assert Kept(list, entries) == [];
    } else {
      var n := |entries| - 1;
      var front, kept := entries[..n], Kept(list, entries)[n];
      NamedBytes();
      RegisteredAre(list, front);
      Extended(front, Kept(list, front), Registered(list, front), entries[n], kept);
      assert entries == front + [entries[n]] && Kept(list, entries) == Kept(list, front) + [kept];
      assert Registered(list, front) + [] == Registered(list, front);
      assert kept == Registers(list, n, entries[n]);
    }
  }

  /** That is the list entry k is held against, and looking at it once more leaves what the next entry sees. */
  lemma ListSeen(s: seq<u8>, k: nat, name: seq<u8>)
    ensures name in Names(SeenBy(s, k)) <==> IsExcluded(Names(s), k, name)
    ensures SeenBy(SeenBy(s, k), 1) == SeenBy(s, k + 1)
  {
    hide Names, Commas, NameEnd;
    NamesStep(s);
    if Commas(s) < |s| {
      var c, e := Commas(s), FirstEnd(s);
      CutBehindFirst(s);
      CommasAre(s[..e], c);
      NameEndIs(s[..e], c, e);
    }
  }

  // ---- how far that is what is documented ----

  /** Entry k is a test the documentation says is left out but that is registered. */
  predicate SlipsThrough(list: seq<seq<u8>>, entries: seq<seq<u8>>, k: nat)
    requires k < |entries|
  {
    k > 0 && !IsDotEntry(entries[k]) && entries[k] in list && entries[k] != list[0]
  }

  lemma {:induction false} RegisteredIsMore(list: seq<seq<u8>>, entries: seq<seq<u8>>)
    ensures |Documented(list, entries)| <= |Registered(list, entries)|
    ensures |Documented(list, entries)| == |Registered(list, entries)| <==>
            forall k :: 0 <= k < |entries| ==> !SlipsThrough(list, entries, k)
    ensures |Documented(list, entries)| == |Registered(list, entries)| ==>
      Documented(list, entries) == Registered(list, entries)
  {
    if entries != [] {
      var n := |entries| - 1;
      RegisteredIsMore(list, entries[..n]);
      assert forall k :: 0 <= k < n ==> SlipsThrough(list, entries, k) == SlipsThrough(list, entries[..n], k);
      assert Registers(list, n, entries[n]) <==>
        SlipsThrough(list, entries, n) || !(IsDotEntry(entries[n]) || entries[n] in list);
    }
  }

  /** The list is honoured as documented if and only if no entry behind the first is a test that is listed, but
      not as the first name. */
  lemma HonouredIff(list: seq<seq<u8>>, entries: seq<seq<u8>>)
    ensures Registered(list, entries) == Documented(list, entries) <==>
            forall k :: 0 < k < |entries| && !IsDotEntry(entries[k]) && entries[k] in list ==> entries[k] == list[0]
  {
    RegisteredIsMore(list, entries);
    assert forall k :: 0 < k < |entries| && !IsDotEntry(entries[k]) && entries[k] in list && entries[k] != list[0] ==>
      SlipsThrough(list, entries, k);
  }

  /** A list of one name is always honoured. */
  lemma OneNameHonoured(name: seq<u8>, entries: seq<seq<u8>>)
    ensures Registered([name], entries) == Documented([name], entries)
  {
    HonouredIff([name], entries);
  }

  lemma {:induction false} NoneListed(list: seq<seq<u8>>, entries: seq<seq<u8>>, name: seq<u8>)
    requires name in list
    ensures name !in Documented(list, entries)
  {
    if entries != [] {
      NoneListed(list, entries[..|entries| - 1], name);
    }
  }

  /** A list of two names is not, in a directory that has the second one behind another entry. */
  lemma TwoNamesFallShort(first: seq<u8>, second: seq<u8>, other: seq<u8>)
    requires first != second && !IsDotEntry(second)
    ensures second in Registered([first, second], [other, second])
    ensures second !in Documented([first, second], [other, second])
  {
    NoneListed([first, second], [other, second], second);
    var entries := [other, second];
    assert entries[..1] == [other];
    assert Registers([first, second], 1, second);
  }
}
