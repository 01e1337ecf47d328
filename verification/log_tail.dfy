/** breakin.c: show_log and monitor_syslog read what was appended to a log file since they last looked. */
module LogTail {
  import opened Bytes
  import opened Trimming
  import opened Selection
  import opened Scheduler

  /** Where one fgets that starts at p stops: behind a newline, where the buffer is full, or at the end. */
  function FgetsEnd(file: seq<u8>, p: nat, room: nat): (e: nat)
    requires p <= |file|
    ensures p <= e <= |file| && e <= p + room
    ensures p < |file| && room > 0 ==> p < e
    ensures forall k :: p <= k < e - 1 ==> file[k] != NEWLINE
    ensures e < |file| && e < p + room ==> e > p && file[e - 1] == NEWLINE
    decreases room
  {
    if p == |file| || room == 0 then p
    else if file[p] == NEWLINE then p + 1
    else FgetsEnd(file, p + 1, room - 1)
  }

  function Concat(chunks: seq<seq<u8>>): seq<u8> {
    if chunks == [] then [] else Concat(chunks[..|chunks| - 1]) + chunks[|chunks| - 1]
  }

  /** A file that only grows, as one look at it sees it from call to call. */
  ghost predicate Grows(views: seq<seq<u8>>) {
    forall i, j :: 0 <= i <= j < |views| ==> views[i] <= views[j]
  }

  /** The file as the n-th call sees it. Behind the last view nothing is appended any more. */
  function View(views: seq<seq<u8>>, n: nat): seq<u8>
    requires views != []
  {
    if n < |views| then views[n] else views[|views| - 1]
  }

  predicate Contains(s: seq<u8>, t: seq<u8>) {
    exists i {:trigger s[i..]} :: 0 <= i <= |s| && t <= s[i..]
  }

  const ERR := Ascii(".err")
  const EMERG := Ascii(".emerg")

  /** What show_log logs of the chunks it reads: each of them, trimmed. */
  function ShowLogged(chunks: seq<seq<u8>>): seq<seq<u8>> {
    seq(|chunks|, i requires 0 <= i < |chunks| => LineOf(chunks[i]))
  }

  predicate IsAlarm(line: seq<u8>) {
    Contains(line, ERR) || Contains(line, EMERG)
  }

  /** What monitor_syslog logs: the trimmed chunks that are alarms. */
  function SyslogLogged(chunks: seq<seq<u8>>): seq<seq<u8>> {
    if chunks == [] then []
    else
      var line := LineOf(chunks[|chunks| - 1]);
      SyslogLogged(chunks[..|chunks| - 1]) + if IsAlarm(line) then [line] else []
  }

  /** The chunks as C strings, trimmed. */
  function Lines(chunks: seq<seq<u8>>): seq<seq<u8>> {
    seq(|chunks|, k requires 0 <= k < |chunks| => Trimmed(CStr(chunks[k], 0)))
  }

  /** t occurs somewhere in line. */
  ghost predicate Occurs(t: string, line: seq<u8>) {
    exists i: nat :: OccursAt(t, line, i)
  }

  ghost predicate OccursAt(t: string, line: seq<u8>, i: nat) {
    i + |t| <= |line| && IsText(line[i..i + |t|], t)
  }

  /** Which of them are alarms. */
  ghost function Alarms(chunks: seq<seq<u8>>): seq<bool> {
    seq(|chunks|, k requires 0 <= k < |chunks| =>
      var line := Trimmed(CStr(chunks[k], 0)); Occurs(".err", line) || Occurs(".emerg", line))
  }

  lemma ContainsIs(line: seq<u8>, t: string)
    requires forall k :: 0 <= k < |t| ==> t[k] as int < 0x80
    ensures Contains(line, Ascii(t)) <==> Occurs(t, line)
  {
    AsciiIsText(t);
    var r := Ascii(t);
    hide Ascii;
    if Contains(line, r) {
      var i :| 0 <= i <= |line| && r <= line[i..];
      assert line[i..i + |t|] == r;
      assert OccursAt(t, line, i);
    }
    if Occurs(t, line) {
      var i: nat :| OccursAt(t, line, i);
      assert line[i..][..|t|] == line[i..i + |t|] == r;
    }
  }

  lemma AlarmIs(line: seq<u8>)
    ensures IsAlarm(line) <==> Occurs(".err", line) || Occurs(".emerg", line)
  {
    hide Contains;
    ContainsIs(line, ".err");
    ContainsIs(line, ".emerg");
  }

  /** What is logged of the chunks is each that is an alarm, in their order, and nothing else. */
  lemma {:induction false} AlarmsAreLogged(chunks: seq<seq<u8>>)
    ensures IsSelection(Lines(chunks), Alarms(chunks), SyslogLogged(chunks))
  {
    hide IsSelection, Trimmed, CStr, IsAlarm, Occurs;
    if chunks == [] {
      NoneSelected<seq<u8>>();
      assert Lines(chunks) == [] && Alarms(chunks) == [];
    } else {
      var n := |chunks| - 1;
      var front, line := chunks[..n], Trimmed(CStr(chunks[n], 0));
      var alarm := Occurs(".err", line) || Occurs(".emerg", line);
      AlarmsAreLogged(front);
      AlarmIs(line);
      Extended(Lines(front), Alarms(front), SyslogLogged(front), line, alarm);
      assert Lines(chunks) == Lines(front) + [line] && Alarms(chunks) == Alarms(front) + [alarm];
      assert SyslogLogged(front) + [] == SyslogLogged(front);
    }
  }

  /** Chunk number k of those read from start on is a line: a newline may only be its last byte, and it ends there,
      where the buffer is full, or where the file ended when it was read. */
  ghost predicate IsLine(chunks: seq<seq<u8>>, k: nat, start: nat, vs: seq<seq<u8>>)
    requires k < |chunks|
  {
    && 0 < |chunks[k]| < BUFSIZ
    && (forall i :: 0 <= i < |chunks[k]| - 1 ==> chunks[k][i] as int != '\n' as int)
    && (chunks[k][|chunks[k]| - 1] as int == '\n' as int || |chunks[k]| == 8191 ||
        exists v :: v in vs && start + |Concat(chunks[..k + 1])| == |v|)
  }

  ghost predicate AllLines(chunks: seq<seq<u8>>, start: nat, vs: seq<seq<u8>>) {
    forall k :: 0 <= k < |chunks| ==> IsLine(chunks, k, start, vs)
  }

  /** One fgets more. */
  lemma OneLineMore(chunks: seq<seq<u8>>, start: nat, vs: seq<seq<u8>>, file: seq<u8>, at: nat)
    requires AllLines(chunks, start, vs)
    requires file in vs && at < |file| && |Concat(chunks)| == at - start && start <= at
    ensures AllLines(chunks + [file[at..FgetsEnd(file, at, BUFSIZ - 1)]], start, vs)
  {
    hide FgetsEnd;
    var e := FgetsEnd(file, at, BUFSIZ - 1);
    var chunk := file[at..e];
    var all := chunks + [chunk];
    assert forall k :: 0 <= k < |chunk| ==> chunk[k] == file[at + k];
    assert all[..|chunks| + 1] == all && all[..|chunks|] == chunks;
    forall k | 0 <= k < |chunks|
      ensures IsLine(all, k, start, vs)
    {
      assert IsLine(chunks, k, start, vs) && all[..k + 1] == chunks[..k + 1];
    }
  }

  /** The fgets loop from start on. now is the file as the last call sees it, which finds nothing more. */
  method ReadOn(vs: seq<seq<u8>>, start: nat) returns (chunks: seq<seq<u8>>, at: nat, ghost now: seq<u8>)
    requires vs != [] && Grows(vs) && start <= |vs[0]|
    ensures now in vs && vs[0] <= now && start <= at == |now| && Concat(chunks) == now[start..]
    ensures forall k :: 0 <= k < |chunks| ==> 0 < |chunks[k]| < BUFSIZ
    ensures AllLines(chunks, start, vs)
  {
    chunks, at := [], start;
    var n := 0;
    ViewsGrow(vs, 0);
    assert Concat(chunks) == View(vs, n)[start..at];
    hide Concat, AllLines;
    while at < |View(vs, n)|
      invariant start <= at <= |View(vs, n)|
      invariant Concat(chunks) == View(vs, n)[start..at]
      invariant forall k :: 0 <= k < |chunks| ==> 0 < |chunks[k]| < BUFSIZ
      invariant AllLines(chunks, start, vs)
      decreases |vs[|vs| - 1]| - at
    {
      var file := View(vs, n);
      ViewsGrow(vs, n);
      var e := FgetsEnd(file, at, BUFSIZ - 1);
      ghost var before := chunks;
      chunks := chunks + [file[at..e]];
      OneLineMore(before, start, vs, file, at);
      ChunkAdded(before, file, View(vs, n + 1), start, at, e);
      at := e;
      n := n + 1;
    }
    ViewsGrow(vs, n);
    now := View(vs, n);
  }

  lemma ViewsGrow(vs: seq<seq<u8>>, n: nat)
    requires vs != [] && Grows(vs)
    ensures vs[0] <= View(vs, n) <= View(vs, n + 1) && View(vs, n) <= vs[|vs| - 1] && View(vs, n) in vs
  {
  }

  lemma ChunkAdded(chunks: seq<seq<u8>>, file: seq<u8>, later: seq<u8>, start: nat, at: nat, e: nat)
    requires start <= at <= e <= |file| && file <= later && Concat(chunks) == file[start..at]
    ensures Concat(chunks + [file[at..e]]) == later[start..e]
  {
    assert (chunks + [file[at..e]])[..|chunks|] == chunks;
    assert later[start..e] == file[start..at] + file[at..e];
  }

  /** The cursor into one log file: log_pos or syslog_pos, -1 until the file was first opened. */
  class Tail {
    var pos: int
    /** the file as it was last seen, where reading it began, and all that was read of it */
    ghost var seen: seq<u8>
    ghost var origin: nat
    ghost var delivered: seq<u8>

    /** Exactly once: what was delivered is the file from where reading began up to the cursor. */
    ghost predicate Valid()
      reads this
    {
      if pos == -1 then delivered == []
      else 0 <= origin <= pos <= |seen| && delivered == seen[origin..pos]
    }

    constructor ()
      ensures Valid() && pos == -1 && seen == [] && delivered == []
    {
      pos, seen, delivered := -1, [], [];
    }

    /** The reading of both functions. views is the file as the seek and then each fgets of this look see it, None
        a file that cannot be opened. Reading ends when an fgets finds nothing behind the cursor. */
    method Read(views: Option<seq<seq<u8>>>) returns (chunks: seq<seq<u8>>)
      requires Valid()
      requires views.Some? ==> views.value != [] && Grows(views.value) && seen <= views.value[0]
      modifies this
      ensures Valid() && delivered == old(delivered) + Concat(chunks)
      ensures views.None? ==> chunks == [] && pos == old(pos) && seen == old(seen) && origin == old(origin)
      ensures views.Some? ==> seen in views.value && pos == |seen|
      ensures views.Some? ==> origin == if old(pos) == -1 then |views.value[0]| else old(origin)
      ensures forall k :: 0 <= k < |chunks| ==> 0 < |chunks[k]| < BUFSIZ
      ensures views.Some? ==>
        AllLines(chunks, if old(pos) == -1 then |views.value[0]| else old(pos), views.value)
    {
      hide AllLines;
      chunks := [];
      if views.None? {
        return;
      }
      var vs := views.value;
      var at: nat;
      if pos == -1 {
        at := |vs[0]|;
        origin := at;
      } else {
        at := pos;
      }
      ghost var before, now := delivered, [];
      chunks, at, now := ReadOn(vs, at);
      assert pos != -1 ==> now[origin..at] == now[origin..pos] + now[pos..at] && now[origin..pos] == seen[origin..pos];
      delivered := delivered + Concat(chunks);
      seen := now;
      pos := at;
    }

    /** show_log */
    method ShowLog(views: Option<seq<seq<u8>>>) returns (logged: seq<seq<u8>>, ghost chunks: seq<seq<u8>>)
      requires Valid()
      requires views.Some? ==> views.value != [] && Grows(views.value) && seen <= views.value[0]
      modifies this
      ensures Valid() && delivered == old(delivered) + Concat(chunks) && logged == ShowLogged(chunks)
      ensures |logged| == |chunks| && forall k :: 0 <= k < |chunks| ==> logged[k] == Trimmed(CStr(chunks[k], 0))
      ensures if views.None? then pos == old(pos) && seen == old(seen) && logged == []
              else seen in views.value && pos == |seen| && (old(pos) != -1 ==> origin == old(origin))
      ensures views.Some? ==>
        AllLines(chunks, if old(pos) == -1 then |views.value[0]| else old(pos), views.value)
    {
      hide AllLines;
      var read := Read(views);
      chunks := read;
      logged := [];
      hide Trimmed, CStr;
      for k := 0 to |read|
        invariant |logged| == k && forall i :: 0 <= i < k ==> logged[i] == LineOf(read[i])
      {
        logged := logged + [LineOf(read[k])];
      }
    }

    /** monitor_syslog */
    method MonitorSyslog(views: Option<seq<seq<u8>>>) returns (logged: seq<seq<u8>>, ghost chunks: seq<seq<u8>>)
      requires Valid()
      requires views.Some? ==> views.value != [] && Grows(views.value) && seen <= views.value[0]
      modifies this
      ensures Valid() && delivered == old(delivered) + Concat(chunks) && logged == SyslogLogged(chunks)
      ensures IsSelection(Lines(chunks), Alarms(chunks), logged)
      ensures if views.None? then pos == old(pos) && seen == old(seen) && logged == []
              else seen in views.value && pos == |seen| && (old(pos) != -1 ==> origin == old(origin))
      ensures views.Some? ==>
        AllLines(chunks, if old(pos) == -1 then |views.value[0]| else old(pos), views.value)
    {
      hide AllLines, Trimmed, CStr, Contains, IsSelection, Concat;
      var read := Read(views);
      chunks := read;
      logged := [];
      for k := 0 to |read|
        invariant logged == SyslogLogged(read[..k])
      {
        assert read[..k + 1][..k] == read[..k];
        var line := LineOf(read[k]);
        if Contains(line, ERR) {
          logged := logged + [line];
        } else if Contains(line, EMERG) {
          logged := logged + [line];
        }
      }
      assert read[..|read|] == read;
      AlarmsAreLogged(read);
    }
  }

  /** All that a sequence of looks sees, in order. */
  function AllViews(looks: seq<Option<seq<seq<u8>>>>): seq<seq<u8>> {
    if looks == [] then []
    else
      var l := looks[|looks| - 1];
      AllViews(looks[..|looks| - 1]) + ViewsOf(l)
  }

  function ViewsOf(look: Option<seq<seq<u8>>>): seq<seq<u8>> {
    if look.Some? then look.value else []
  }

  /** A stretch of a growing file's views grows as well, from the views before it. */
  lemma Stretch(all: seq<seq<u8>>, before: seq<seq<u8>>, v: seq<seq<u8>>)
    requires Grows(all) && before + v <= all
    ensures Grows(v)
    ensures forall seen :: seen in before && v != [] ==> seen <= v[0]
    ensures before + v != [] ==> all != [] && (before + v)[0] == all[0]
  {
    assert forall i :: 0 <= i < |v| ==> v[i] == (before + v)[|before| + i] == all[|before| + i];
    assert forall i :: 0 <= i < |before| ==> before[i] == (before + v)[i] == all[i];
    forall i, j | 0 <= i <= j < |v|
      ensures v[i] <= v[j]
    {
      assert all[|before| + i] <= all[|before| + j];
    }
  }

  /** Look number k sees a stretch of all views that follows what the looks before it have seen. */
  lemma ViewsSplit(looks: seq<Option<seq<seq<u8>>>>, k: nat)
    requires k < |looks|
    ensures AllViews(looks[..k + 1]) == AllViews(looks[..k]) + ViewsOf(looks[k]) <= AllViews(looks)
  {
    assert looks[..k + 1][..k] == looks[..k];
    ViewsPrefix(looks, k + 1);
  }

  lemma {:induction false} ViewsPrefix(looks: seq<Option<seq<seq<u8>>>>, k: nat)
    requires k <= |looks|
    ensures AllViews(looks[..k]) <= AllViews(looks)
  {
    if k == |looks| {
      assert looks[..k] == looks;
    } else {
      ViewsPrefix(looks[..|looks| - 1], k);
      assert looks[..|looks| - 1][..k] == looks[..k];
    }
  }

  lemma {:induction false} ConcatAll(a: seq<seq<u8>>, b: seq<seq<u8>>)
    ensures Concat(a + b) == Concat(a) + Concat(b)
    decreases |b|
  {
    if b == [] {
      assert a + b == a;
    } else {
      var n := |b| - 1;
      ConcatAll(a, b[..n]);
      assert (a + b)[..|a + b| - 1] == a + b[..n];
    }
  }

  /** Where the cursor is when the views done have been seen. */
  ghost predicate Caught(done: seq<seq<u8>>, all: seq<seq<u8>>, pos: int, seen: seq<u8>, origin: nat, none: bool) {
    && (done == [] ==> pos == -1 && seen == [] && none)
    && (done != [] ==> seen in done && pos == |seen| && all != [] && origin == |all[0]|)
  }

  /** One look more. */
  lemma CaughtOn(done: seq<seq<u8>>, v: seq<seq<u8>>, all: seq<seq<u8>>, pos: int, seen: seq<u8>, origin: nat,
      pos': int, seen': seq<u8>, origin': nat, none: bool, none': bool)
    requires Caught(done, all, pos, seen, origin, none) && done + v <= all
    requires v == [] ==> pos' == pos && seen' == seen && origin' == origin && none' == none
    requires v != [] ==> seen' in v && pos' == |seen'| && origin' == if pos == -1 then |v[0]| else origin
    ensures Caught(done + v, all, pos', seen', origin', none')
  {
    if v == [] {
      assert done + v == done;
    } else {
      assert (done + v)[0] == all[0] && (done == [] ==> (done + v)[0] == v[0]);
      assert v == (done + v)[|done|..];
    }
  }

  /** Any number of looks at a file that only grows, some of which may fail to open it, deliver together exactly
      what was appended between the end of the file when it was first opened and the cursor. */
  method Watch(looks: seq<Option<seq<seq<u8>>>>)
    returns (chunks: seq<seq<u8>>, pos: int, ghost first: nat, ghost last: seq<u8>)
    requires Grows(AllViews(looks))
    requires forall k :: 0 <= k < |looks| && looks[k].Some? ==> looks[k].value != []
    ensures AllViews(looks) == [] ==> chunks == [] && pos == -1
    ensures AllViews(looks) != [] ==>
      last in AllViews(looks) && first == |AllViews(looks)[0]| <= pos == |last| && Concat(chunks) == last[first..pos]
  {
    hide AllLines, Caught, AllViews, Grows, Concat, ViewsOf;
    NothingSeen();
    var tail := new Tail();
    ghost var all := AllViews(looks);
    chunks, last := [], [];
    assert looks[..0] == [];
    for k := 0 to |looks|
      invariant fresh(tail) && tail.Valid() && tail.delivered == Concat(chunks)
      invariant Caught(AllViews(looks[..k]), all, tail.pos, tail.seen, tail.origin, chunks == [])
    {
      ghost var before, v := AllViews(looks[..k]), ViewsOf(looks[k]);
      ghost var pos0, seen0, origin0, none := tail.pos, tail.seen, tail.origin, chunks == [];
      ViewsSplit(looks, k);
      Stretch(all, before, v);
      ViewsAre(looks[k]);
      SeenBefore(before, all, pos0, seen0, origin0, none);
      var read := tail.Read(looks[k]);
      ConcatAll(chunks, read);
      CaughtOn(before, v, all, pos0, seen0, origin0, tail.pos, tail.seen, tail.origin, none, chunks + read == []);
      chunks := chunks + read;
    }
    pos, last, first := tail.pos, tail.seen, tail.origin;
    assert looks[..|looks|] == looks;
    CaughtAll(all, pos, last, first, chunks == []);
  }

  lemma NothingSeen()
    ensures AllViews([]) == [] && Concat([]) == []
    ensures forall all, origin :: Caught([], all, -1, [], origin, true)
  {
  }

  lemma ViewsAre(look: Option<seq<seq<u8>>>)
    ensures ViewsOf(look) == if look.Some? then look.value else []
  {
  }

  lemma SeenBefore(done: seq<seq<u8>>, all: seq<seq<u8>>, pos: int, seen: seq<u8>, origin: nat, none: bool)
    requires Caught(done, all, pos, seen, origin, none)
    ensures seen == [] || seen in done
  {
  }

  lemma CaughtAll(all: seq<seq<u8>>, pos: int, seen: seq<u8>, origin: nat, none: bool)
    requires Caught(all, all, pos, seen, origin, none)
    ensures all == [] ==> none && pos == -1
    ensures all != [] ==> seen in all && origin == |all[0]| && pos == |seen|
  {
  }
}
